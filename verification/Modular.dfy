/** Remainders: what circular indices need. */
module Modular {

  lemma MulGrows(k: nat, m: nat)
    requires k >= 1
    ensures k * m >= m
  {
    assert k * m == (k - 1) * m + m;
  }

  lemma ModUnique(n: nat, m: nat, a: nat, r: nat)
    requires m > 0 && r < m && n == a * m + r
    ensures n % m == r
  {
    var k := a - n / m;
    assert n % m - r == k * m by {
      assert n == (n / m) * m + n % m;
      assert k * m == a * m - (n / m) * m;
    }
    if k >= 1 {
      MulGrows(k, m);
    } else if k <= -1 {
      MulGrows(-k, m);
    }
  }

  lemma DivUnique(n: nat, m: nat, a: nat, r: nat)
    requires m > 0 && r < m && n == a * m + r
    ensures n / m == a
  {
    ModUnique(n, m, a, r);
    var k := n / m - a;
    MulSign(k, m);
    assert k * m == 0 by {
      assert n == (n / m) * m + n % m;
      assert k * m == (n / m) * m - a * m;
    }
  }

  lemma MulSign(k: int, m: nat)
    ensures k >= 1 ==> k * m >= m
    ensures k <= -1 ==> k * m + m <= 0
  {
    if k >= 1 {
      MulGrows(k, m);
    } else if k <= -1 {
      MulGrows(-k, m);
      assert k * m == -(-k * m);
    }
  }

  /** Dividing twice is dividing by the product. */
  lemma DivTwice(n: nat, p: nat, q: nat)
    requires p > 0 && q > 0
    ensures p * q > 0 && n / p / q == n / (p * q)
  {
    MulGrows(p, q);
    var m := n / p;
    var a, b, r := m / q, m % q, n % p;
    assert n == p * m + r && m == a * q + b;
    assert p * m == a * (p * q) + p * b by {
      assert p * (a * q + b) == p * (a * q) + p * b;
      assert p * (a * q) == a * (p * q);
    }
    assert p * b + r < p * q by {
      assert p * b + p == p * (b + 1);
      MulMono(p, b + 1, q);
    }
    DivUnique(n, p * q, a, p * b + r);
  }

  lemma MulMono(p: nat, b: nat, q: nat)
    requires b <= q
    ensures p * b <= p * q
  {
    assert p * q == p * b + p * (q - b);
  }

  /** Counting modulo `m`. */
  lemma ModSucc(n: nat, m: nat)
    requires m > 0
    ensures (n + 1) % m == if n % m + 1 == m then 0 else n % m + 1
  {
    var q, r := n / m, n % m;
    assert n == q * m + r;
    if r + 1 < m {
      ModUnique(n + 1, m, q, r + 1);
    } else {
      assert (q + 1) * m == q * m + m;
      ModUnique(n + 1, m, q + 1, 0);
    }
  }

  /** Numbers less than a round apart have different remainders. */
  lemma ModDistinct(i: nat, n: nat, m: nat)
    requires i < n < i + m
    ensures i % m != n % m
  {
    if i % m == n % m {
      var k := n / m - i / m;
      assert n == (n / m) * m + n % m && i == (i / m) * m + i % m;
      assert n - i == k * m;
      if k >= 1 {
        MulGrows(k, m);
      }
    }
  }
}
