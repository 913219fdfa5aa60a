/** Low-S normalisation of ECDSA signatures: the in-place update of the big integer, the canonical
    form it produces, and the fact that it never changes whether a signature verifies. */
module LowS {
  import opened Common

  /** A `big.Int`: a mutable integer. */
  class BigInt {
    var val: int

    constructor (v: int)
      ensures val == v
    {
      val := v;
    }

    method Sub(a: int, b: int)
      modifies this
      ensures val == a - b
    {
      val := a - b;
    }
  }

  datatype Curve = Curve(name: string, order: nat)

  /** The precomputed table of half orders: the four NIST curves, each with its order shifted right by one. */
  function CurveHalfOrder(c: Curve): Option<nat> {
    if c.name in {"P-224", "P-256", "P-384", "P-521"} then Some(c.order / 2) else None
  }

  function Unrecognized(c: Curve): Error {
    Plain("curve not recognized [" + c.name + "]")
  }

  predicate IsLow(order: nat, s: int) {
    s <= order / 2
  }

  function Low(order: nat, s: int): int {
    if IsLow(order, s) then s else order - s
  }

  method IsLowS(c: Curve, s: BigInt) returns (r: Result<bool>)
    ensures r == if c.name == "P-224" || c.name == "P-256" || c.name == "P-384" || c.name == "P-521"
                 then Ok(2 * s.val <= c.order) else Err(Plain("curve not recognized [" + c.name + "]"))
  {
    var half := CurveHalfOrder(c);
    if half.None? {
      return Err(Unrecognized(c));
    }
    return Ok(s.val <= half.value);
  }

  /** On success the caller's own integer is returned, and it holds the low value. */
  method ToLowS(c: Curve, s: BigInt) returns (r: Result<BigInt>)
    modifies s
    ensures r.Ok? <==> c.name == "P-224" || c.name == "P-256" || c.name == "P-384" || c.name == "P-521"
    ensures r.Err? ==> r == Err(Plain("curve not recognized [" + c.name + "]")) && s.val == old(s.val)
    ensures r.Ok? ==> r == Ok(s) && s.val == Low(c.order, old(s.val))
  {
    var low :- IsLowS(c, s);
    if !low {
      s.Sub(c.order, s.val);
      return Ok(s);
    }
    return Ok(s);
  }

  datatype Signature = Signature(r: int, s: int)

  /** The part of `Sign` after the digest: `drawn` is what the ECDSA library returned for it. */
  method Sign(c: Curve, drawn: Result<(int, BigInt)>, marshal: Signature -> Result<Bytes>) returns (sig: Result<Bytes>)
    modifies if drawn.Ok? then {drawn.value.1} else {}
    ensures drawn.Err? ==> sig == Err(drawn.error)
    ensures drawn.Ok? ==>
              sig == if c.name == "P-224" || c.name == "P-256" || c.name == "P-384" || c.name == "P-521"
                     then marshal(Signature(drawn.value.0, Low(c.order, old(drawn.value.1.val))))
                     else Err(Plain("curve not recognized [" + c.name + "]"))
  {
    var scalars :- drawn;
    var (r, s) := scalars;
    s :- ToLowS(c, s);
    sig := marshal(Signature(r, s.val));
  }

  // ----- canonical form

  /** For a scalar of the signature space: one of the pair {s, N-s}, in the lower half, stable, and
      the same for both members of the pair. */
  lemma LowIsCanonical(n: nat, s: int)
    requires 0 < s < n
    ensures Low(n, s) == s || Low(n, s) == n - s
    ensures 1 <= Low(n, s) <= n / 2
    ensures Low(n, Low(n, s)) == Low(n, s)
    ensures Low(n, n - s) == Low(n, s)
    ensures n % 2 == 1 ==> (IsLow(n, s) <==> !IsLow(n, n - s))
  {
  }

  /** Two scalars have one low form exactly when they are equal or negatives of each other. */
  lemma LowSeparates(n: nat, s: int, t: int)
    requires 0 < s < n && 0 < t < n
    ensures Low(n, s) == Low(n, t) <==> s == t || s == n - t
  {
  }

  // ----- validity: section 4.1.4 of SEC 1 v2.0, section 6.4.2 of FIPS 186-5

  /** A group of curve points with its x-coordinate map. */
  datatype Group<!P> = Group(zero: P, add: (P, P) -> P, neg: P -> P, x: P -> int)

  // The laws, one instance at a time.
  predicate Assoc<P(==)>(g: Group<P>, p: P, q: P, r: P) { g.add(g.add(p, q), r) == g.add(p, g.add(q, r)) }

  predicate Comm<P(==)>(g: Group<P>, p: P, q: P) { g.add(p, q) == g.add(q, p) }

  predicate Unit<P(==)>(g: Group<P>, p: P) { g.add(g.zero, p) == p }

  predicate Cancels<P(==)>(g: Group<P>, p: P) { g.add(p, g.neg(p)) == g.zero }

  predicate SameX<P>(g: Group<P>, p: P) { g.x(g.neg(p)) == g.x(p) }

  ghost predicate Lawful<P(!new)>(g: Group<P>) {
    && (forall p, q, r :: Assoc(g, p, q, r))
    && (forall p, q :: Comm(g, p, q))
    && (forall p :: Unit(g, p))
    && (forall p :: Cancels(g, p))
    && (forall p :: SameX(g, p))
  }

  function Mul<P>(g: Group<P>, k: nat, p: P): P {
    if k == 0 then g.zero else g.add(p, Mul(g, k - 1, p))
  }

  ghost predicate IsInverse(w: int, s: int, n: nat)
    requires n > 1
  {
    0 <= w < n && (s * w) % n == 1
  }

  /** The point recomputed by the verifier from the inverse `w` of `s`. */
  function Recomputed<P>(g: Group<P>, n: nat, base: P, key: P, e: int, r: int, w: int): P
    requires n > 1
  {
    g.add(Mul(g, (e * w) % n, base), Mul(g, (r * w) % n, key))
  }

  /** What the verifier accepts, with `w` as the inverse of the scalar. */
  ghost predicate Accepts<P>(g: Group<P>, n: nat, base: P, key: P, e: int, r: int, w: int)
    requires n > 1
  {
    var point := Recomputed(g, n, base, key, e, r, w);
    point != g.zero && g.x(point) % n == r
  }

  ghost predicate Verifies<P>(g: Group<P>, n: nat, base: P, key: P, e: int, r: int, s: int)
    requires n > 1
  {
    && 0 < r < n
    && 0 < s < n
    && exists w :: IsInverse(w, s, n) && Accepts(g, n, base, key, e, r, w)
  }

  lemma {:induction false} MulAdd<P(!new)>(g: Group<P>, a: nat, b: nat, p: P)
    requires Lawful(g)
    ensures Mul(g, a + b, p) == g.add(Mul(g, a, p), Mul(g, b, p))
  {
    if a == 0 {
      assert Unit(g, Mul(g, b, p));
    } else {
      MulAdd(g, a - 1, b, p);
      assert Assoc(g, p, Mul(g, a - 1, p), Mul(g, b, p));
    }
  }

  lemma NegUnique<P(!new)>(g: Group<P>, p: P, q: P)
    requires Lawful(g) && g.add(p, q) == g.zero
    ensures q == g.neg(p)
  {
    var p' := g.neg(p);
    assert Unit(g, q) && Cancels(g, p) && Comm(g, p, p') && Assoc(g, p', p, q);
    assert q == g.add(p', g.zero);
    assert Comm(g, p', g.zero) && Unit(g, p');
  }

  lemma NegOfSum<P(!new)>(g: Group<P>, p: P, q: P)
    requires Lawful(g)
    ensures g.neg(g.add(p, q)) == g.add(g.neg(p), g.neg(q))
  {
    var p', q' := g.neg(p), g.neg(q);
    assert g.add(q, g.add(p', q')) == p' by {
      assert Comm(g, p', q') && Assoc(g, q, q', p') && Cancels(g, q) && Unit(g, p');
    }
    assert Assoc(g, p, q, g.add(p', q')) && Cancels(g, p);
    NegUnique(g, g.add(p, q), g.add(p', q'));
  }

  /** A negated scalar negates the point. */
  lemma MulNegated<P(!new)>(g: Group<P>, n: nat, k: nat, p: P)
    requires Lawful(g) && Mul(g, n, p) == g.zero && k <= n
    ensures Mul(g, n - k, p) == g.neg(Mul(g, k, p))
  {
    MulAdd(g, k, n - k, p);
    NegUnique(g, Mul(g, k, p), Mul(g, n - k, p));
  }

  lemma {:induction false} MultipleAtLeast(k: nat, n: nat)
    requires k > 0
    ensures k * n >= n
  {
    if k > 1 {
      MultipleAtLeast(k - 1, n);
      assert k * n == (k - 1) * n + n;
    }
  }

  lemma {:induction false} MultipleNotBetween(k: int, n: nat, d: int)
    requires k * n == d && d < n && -d < n
    ensures d == 0
  {
    if k > 0 {
      MultipleAtLeast(k, n);
    } else if k < 0 {
      assert (-k) * n == -(k * n);
      MultipleAtLeast(-k, n);
    }
  }

  lemma {:induction false} RemainderIs(a: int, n: nat, q: int, r: int)
    requires n > 0 && a == q * n + r && 0 <= r < n
    ensures a % n == r
  {
    assert a == (a / n) * n + a % n;
    assert (q - a / n) * n == a % n - r;
    MultipleNotBetween(q - a / n, n, a % n - r);
  }

  /** Negating one factor negates a product modulo n. */
  lemma {:induction false} NegatedProduct(e: int, w: int, n: nat)
    requires n > 1
    ensures (e * (n - w)) % n == if (e * w) % n == 0 then 0 else n - (e * w) % n
  {
    var q, u := (e * w) / n, (e * w) % n;
    assert e * w == q * n + u;
    assert e * (n - w) == e * n - e * w;
    if u == 0 {
      assert e * (n - w) == (e - q) * n + 0;
      RemainderIs(e * (n - w), n, e - q, 0);
    } else {
      assert e * (n - w) == (e - q - 1) * n + (n - u);
      RemainderIs(e * (n - w), n, e - q - 1, n - u);
    }
  }

  /** inverse(N - s) = N - inverse(s). */
  lemma {:induction false} InverseOfNegated(w: int, s: int, n: nat)
    requires n > 1 && IsInverse(w, s, n)
    ensures IsInverse(n - w, n - s, n)
  {
    assert w != 0;
    var q := (s * w) / n;
    assert s * w == q * n + 1;
    assert (n - s) * (n - w) == (n - s - w) * n + s * w;
    assert (n - s) * (n - w) == (n - s - w + q) * n + 1;
    RemainderIs((n - s) * (n - w), n, n - s - w + q, 1);
  }

  /** Inverses are unique. */
  lemma {:induction false} InverseUnique(w: int, v: int, s: int, n: nat)
    requires n > 1 && IsInverse(w, s, n) && IsInverse(v, s, n)
    ensures w == v
  {
    var a, b := (s * w) / n, (s * v) / n;
    assert s * w == a * n + 1 && s * v == b * n + 1;
    assert w * (s * v) == v * (s * w);
    assert w * (b * n + 1) == v * (a * n + 1);
    assert w - v == (v * a - w * b) * n;
    MultipleNotBetween(v * a - w * b, n, w - v);
  }

  /** The verifier's choice of an inverse does not matter: a signature verifies exactly when there is an
      inverse and every inverse gives a point that is accepted. */
  lemma {:induction false} AnyInverseDecides<P>(g: Group<P>, n: nat, base: P, key: P, e: int, r: int, s: int)
    requires n > 1
    ensures Verifies(g, n, base, key, e, r, s)
            <==> && 0 < r < n && 0 < s < n
                 && (exists w :: IsInverse(w, s, n))
                 && (forall w :: IsInverse(w, s, n) ==> Accepts(g, n, base, key, e, r, w))
  {
    forall v, w | IsInverse(v, s, n) && IsInverse(w, s, n)
      ensures v == w
    {
      InverseUnique(v, w, s, n);
    }
  }

  /** Both scalars negate, so the recomputed point does. */
  lemma {:induction false} RecomputedNegates<P(!new)>(g: Group<P>, n: nat, base: P, key: P, e: int, r: int, w: int)
    requires n > 1 && Lawful(g) && Mul(g, n, base) == g.zero && Mul(g, n, key) == g.zero
    ensures Recomputed(g, n, base, key, e, r, n - w) == g.neg(Recomputed(g, n, base, key, e, r, w))
  {
    NegatedScalar(g, n, base, e, w);
    NegatedScalar(g, n, key, r, w);
    NegOfSum(g, Mul(g, (e * w) % n, base), Mul(g, (r * w) % n, key));
  }

  lemma {:induction false} NegatedScalar<P(!new)>(g: Group<P>, n: nat, p: P, e: int, w: int)
    requires n > 1 && Lawful(g) && Mul(g, n, p) == g.zero
    ensures Mul(g, (e * (n - w)) % n, p) == g.neg(Mul(g, (e * w) % n, p))
  {
    NegatedProduct(e, w, n);
    MulNegated(g, n, (e * w) % n, p);
  }

  lemma {:induction false} NegatedStillVerifies<P(!new)>(g: Group<P>, n: nat, base: P, key: P, e: int, r: int, s: int)
    requires n > 1 && Lawful(g) && Mul(g, n, base) == g.zero && Mul(g, n, key) == g.zero
    requires Verifies(g, n, base, key, e, r, s)
    ensures Verifies(g, n, base, key, e, r, n - s)
  {
    var w :| IsInverse(w, s, n) && Accepts(g, n, base, key, e, r, w);
    InverseOfNegated(w, s, n);
    RecomputedNegates(g, n, base, key, e, r, w);
    var point := Recomputed(g, n, base, key, e, r, w);
    assert Cancels(g, point) && Comm(g, point, g.zero) && Unit(g, point) && SameX(g, point);
    assert IsInverse(n - w, n - s, n);
  }

  lemma {:induction false} MulMul<P(!new)>(g: Group<P>, a: nat, b: nat, p: P)
    requires Lawful(g)
    ensures Mul(g, a, Mul(g, b, p)) == Mul(g, a * b, p)
  {
    if a > 0 {
      MulMul(g, a - 1, b, p);
      MulAdd(g, b, (a - 1) * b, p);
      assert b + (a - 1) * b == a * b;
    }
  }

  lemma {:induction false} MulZero<P(!new)>(g: Group<P>, a: nat)
    requires Lawful(g)
    ensures Mul(g, a, g.zero) == g.zero
  {
    if a > 0 {
      MulZero(g, a - 1);
      assert Unit(g, g.zero);
    }
  }

  /** Multiples only depend on the scalar modulo the order. */
  lemma {:induction false} MulMod<P(!new)>(g: Group<P>, n: nat, a: nat, p: P)
    requires n > 0 && Lawful(g) && Mul(g, n, p) == g.zero
    ensures Mul(g, a % n, p) == Mul(g, a, p)
  {
    var q, r := a / n, a % n;
    assert a == q * n + r;
    MulAdd(g, q * n, r, p);
    MulMul(g, q, n, p);
    MulZero(g, q);
    assert Unit(g, Mul(g, r, p));
  }

  /** What signing draws verifies: with private key `d`, digest `e` and nonce `k`, the scalar `s` solves
      s * k = e + r * d modulo the order, and r is the x-coordinate of the nonce's point. */
  ghost predicate Signed<P>(g: Group<P>, n: nat, base: P, d: nat, e: nat, k: nat, r: nat, s: nat)
    requires n > 1
  {
    && 0 < r < n && 0 < s < n
    && (s * k) % n == (e + r * d) % n
    && Mul(g, k, base) != g.zero
    && g.x(Mul(g, k, base)) % n == r
  }

  lemma Divided(x: int, n: nat)
    requires n > 1
    ensures x == (x / n) * n + x % n
  {
  }

  lemma Regroup(n: int, a: int, b: int, c: int, m: int, x: int, k: int, s: int, w: int)
    requires s * k == a * n + m && x == b * n + m && s * w == c * n + 1
    ensures x * w == (c * k + (b - a) * w) * n + k
  {
    assert (b - a) * n == b * n - a * n;
    assert x == s * k + (b - a) * n;
    assert x * w == (s * w) * k + (b - a) * n * w;
    assert (s * w) * k == c * n * k + k;
  }

  lemma Carry(n: int, q: int, h: int, l: int)
    ensures q * n + (h * n + l) == (q + h) * n + l
  {
  }

  lemma TakeOut(e: int, r: int, d: int, w: int)
    ensures e * w + (r * w) * d == (e + r * d) * w
  {
    assert (r * w) * d == (r * d) * w;
  }

  lemma {:induction false} ScalarsMeet(n: nat, d: nat, e: nat, k: nat, r: nat, s: nat, w: nat)
    requires n > 1 && (s * k) % n == (e + r * d) % n && (s * w) % n == 1
    ensures (e * w + (r * w) * d) % n == k % n
  {
    var sk, sw, x := s * k, s * w, e + r * d;
    Divided(sk, n);
    Divided(x, n);
    Divided(sw, n);
    Divided(k, n);
    Regroup(n, sk / n, x / n, sw / n, x % n, x, k, s, w);
    TakeOut(e, r, d, w);
    var q := (sw / n) * k + (x / n - sk / n) * w;
    Carry(n, q, k / n, k % n);
    RemainderIs(x * w, n, q + k / n, k % n);
  }

  /** From a signature with its private key a verifier recomputes the nonce's point. */
  lemma {:induction false} RecomputesNonce<P(!new)>(
      g: Group<P>, n: nat, base: P, d: nat, e: nat, k: nat, r: nat, s: nat, w: nat)
    requires n > 1 && Lawful(g) && Mul(g, n, base) == g.zero && Mul(g, n, Mul(g, d, base)) == g.zero
    requires (s * k) % n == (e + r * d) % n && (s * w) % n == 1
    ensures Recomputed(g, n, base, Mul(g, d, base), e, r, w) == Mul(g, k, base)
  {
    var key := Mul(g, d, base);
    MulMod(g, n, e * w, base);
    MulMod(g, n, r * w, key);
    MulMul(g, r * w, d, base);
    MulAdd(g, e * w, (r * w) * d, base);
    ScalarsMeet(n, d, e, k, r, s, w);
    MulMod(g, n, e * w + (r * w) * d, base);
    MulMod(g, n, k, base);
  }

  lemma {:induction false} KeyHasOrder<P(!new)>(g: Group<P>, n: nat, base: P, d: nat)
    requires Lawful(g) && Mul(g, n, base) == g.zero
    ensures Mul(g, n, Mul(g, d, base)) == g.zero
  {
    MulMul(g, n, d, base);
    MulMul(g, d, n, base);
    MulZero(g, d);
    assert n * d == d * n;
  }

  /** A signature made with the private key verifies under the public key, and so does its low-S form. */
  lemma {:induction false} SignedVerifies<P(!new)>(
      g: Group<P>, n: nat, base: P, d: nat, e: nat, k: nat, r: nat, s: nat, w: nat)
    requires n > 1 && Lawful(g) && Mul(g, n, base) == g.zero
    requires Signed(g, n, base, d, e, k, r, s) && IsInverse(w, s, n)
    ensures Verifies(g, n, base, Mul(g, d, base), e, r, s)
    ensures Verifies(g, n, base, Mul(g, d, base), e, r, Low(n, s))
  {
    var key := Mul(g, d, base);
    KeyHasOrder(g, n, base, d);
    RecomputesNonce(g, n, base, d, e, k, r, s, w);
    assert Accepts(g, n, base, key, e, r, w);
    LowSKeepsValidity(g, n, base, key, e, r, s);
  }

  /** For every scalar whatsoever, a signature verifies exactly when its low-S form does. */
  lemma {:induction false} LowSKeepsValidity<P(!new)>(g: Group<P>, n: nat, base: P, key: P, e: int, r: int, s: int)
    requires n > 1 && Lawful(g) && Mul(g, n, base) == g.zero && Mul(g, n, key) == g.zero
    ensures Verifies(g, n, base, key, e, r, s) <==> Verifies(g, n, base, key, e, r, Low(n, s))
  {
    if Verifies(g, n, base, key, e, r, s) {
      NegatedStillVerifies(g, n, base, key, e, r, s);
    }
    if Verifies(g, n, base, key, e, r, n - s) {
      NegatedStillVerifies(g, n, base, key, e, r, n - s);
      assert n - (n - s) == s;
    }
  }
}
