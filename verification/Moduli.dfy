/** Remainders of non-negative numbers. */
module Moduli {

  lemma MultipleGrows(size: int, c: int)
    requires size >= 0 && c != 0
    ensures size * c >= size || size * c <= -size
  {
    if c > 0 {
      assert size * (c - 1) >= 0;
    } else {
      assert size * (-c - 1) >= 0;
    }
  }

  lemma ModuloOf(size: nat, q: nat, r: nat)
    requires r < size
    ensures (size * q + r) % size == r
  {
    var x := size * q + r;
    assert size * (x / size - q) == r - x % size;
    if x / size != q {
      MultipleGrows(size, x / size - q);
    }
  }

  /** Reducing first by a multiple of the size makes no difference. */
  lemma ModuloOfMultiple(size: nat, n: nat, a: nat)
    requires size > 0 && n > 0 && n % size == 0
    ensures a % n % size == a % size
  {
    var m, q, r := n / size, a / n, a % n;
    var p, t := r / size, r % size;
    assert a == size * m * q + (size * p + t);
    Regroup(size, m, q, p);
    ModuloOf(size, m * q + p, t);
  }

  lemma Regroup(size: nat, m: nat, q: nat, p: nat)
    ensures m * q + p >= 0
    ensures size * m * q + size * p == size * (m * q + p)
  {
  }

  lemma MultipleOfMultiple(size: nat, n: nat, g: nat)
    requires size > 0 && n % size == 0
    ensures n * g % size == 0
  {
    var m := n / size;
    assert n == size * m;
    MultipleTimes(size, m, g);
  }

  lemma MultipleTimes(size: nat, m: nat, g: nat)
    requires size > 0
    ensures size * m * g % size == 0
  {
    Regroup(size, m, g, 0);
    ModuloOf(size, m * g, 0);
  }

  /** Less than size apart, two numbers have the same remainder only if they are the same. */
  lemma ModuloDiffer(size: nat, a: nat, b: nat)
    requires a <= b < a + size
    ensures a % size == b % size <==> a == b
  {
    var p, q := a / size, b / size;
    if a % size == b % size && q != p {
      assert b - a == size * (q - p);
      MultipleGrows(size, q - p);
    }
  }

  lemma Distribute(size: nat, q: nat, p: nat)
    ensures size * (q + p) == size * q + size * p
  {
  }

  /** Whole multiples of the size make no difference. */
  lemma ModuloShift(size: nat, q: nat, x: nat)
    requires size > 0
    ensures (size * q + x) % size == x % size
  {
    var p, r := x / size, x % size;
    Distribute(size, q, p);
    ModuloOf(size, q + p, r);
  }

  lemma ModuloNext(size: nat, a: nat)
    requires size > 0
    ensures (a % size + 1) % size == (a + 1) % size
  {
    var q, r := a / size, a % size;
    assert a + 1 == size * q + (r + 1);
    ModuloShift(size, q, r + 1);
  }

  lemma ModuloAround(size: nat, a: nat)
    requires size > 0
    ensures (a + size) % size == a % size
  {
    ModuloShift(size, 1, a);
  }
}
