/** Page numbers, the table indices an address is cut into, and the page
    numbers the frame search rebuilds from those indices. Shifts and masks by
    OFFSET_WIDTH bits are division and remainder by the page size. */
module PageNumbers {

  /** Table indices from the root table down. */
  type Path = seq<nat>

  function Child(p: Path, j: nat): Path {
    p + [j]
  }

  function Parent(p: Path): Path
    requires p != []
  {
    p[..|p| - 1]
  }

  function Last(p: Path): nat
    requires p != []
  {
    p[|p| - 1]
  }

  function Pow(b: nat, e: nat): nat {
    if e == 0 then 1 else b * Pow(b, e - 1)
  }

  ghost predicate Digits(base: nat, p: Path) {
    forall i :: 0 <= i < |p| ==> p[i] < base
  }

  /** The table index that address translation takes at `level`. */
  function TableIndex(pageSize: nat, depth: nat, virtualAddress: nat, level: nat): (idx: nat)
    requires pageSize > 0 && level <= depth
  {
    PowPositive(pageSize, depth - level);
    (virtualAddress / Pow(pageSize, depth - level)) % pageSize
  }

  /** A number with one more digit: a shift by the digit's width, plus the digit. */
  function Append(base: nat, n: nat, digit: nat): nat {
    n * base + digit
  }

  /** The number the frame search accumulates while it goes down `p`. */
  function PathNumber(base: nat, p: Path): nat {
    if p == [] then 0 else Append(base, PathNumber(base, Parent(p)), Last(p))
  }

  /** The `n` base-`base` digits of `page`, most significant first. */
  function PagePath(base: nat, n: nat, page: nat): (p: Path)
    requires base > 0
    ensures |p| == n && Digits(base, p)
  {
    if n == 0 then [] else Child(PagePath(base, n - 1, page / base), page % base)
  }

  /** `a` comes before `b` in the order in which the frame search meets them. */
  ghost predicate Before(a: Path, b: Path) {
    exists k: nat :: k < |a| && k < |b| && a[..k] == b[..k] && a[k] < b[k]
  }

  lemma ChildNumber(base: nat, p: Path, j: nat)
    ensures Child(p, j) != [] && Parent(Child(p, j)) == p && Last(Child(p, j)) == j
    ensures PathNumber(base, Child(p, j)) == Append(base, PathNumber(base, p), j)
  {
  }

  lemma PowPositive(b: nat, e: nat)
    requires b > 0
    ensures Pow(b, e) > 0
  {
    if e > 0 {
      PowPositive(b, e - 1);
      MulPositive(b, Pow(b, e - 1));
    }
  }

  lemma MulPositive(a: nat, b: nat)
    requires a > 0 && b > 0
    ensures a * b > 0
  {
  }

  /** Splitting a linear word address back into its frame and offset. */
  lemma SplitAddress(size: nat, frame: nat, offset: nat)
    requires offset < size
    ensures (frame * size + offset) / size == frame && (frame * size + offset) % size == offset
  {
    var a := frame * size + offset;
    DivUnique(a, size, frame, offset);
  }

  lemma DivUnique(a: nat, b: nat, q: nat, r: nat)
    requires b > 0 && r < b && a == q * b + r
    ensures a / b == q && a % b == r
  {
    var q', r' := a / b, a % b;
    assert a == q' * b + r';
    if q' < q {
      CarryLess(q', q, b, r');
    } else if q < q' {
      CarryLess(q, q', b, r);
    }
  }

  /** A smaller leading part wins whatever the last digit is. */
  lemma CarryLess(x: nat, y: nat, base: nat, digit: nat)
    requires x < y && digit < base
    ensures x * base + digit < y * base
  {
    MulMonotone(x + 1, y, base);
    assert (x + 1) * base == x * base + base;
  }

  lemma MulMonotone(a: nat, b: nat, c: nat)
    requires a <= b
    ensures a * c <= b * c
  {
  }

  lemma DivDiv(a: nat, b: nat, c: nat)
    requires b > 0 && c > 0
    ensures b * c > 0 && a / (b * c) == (a / b) / c
  {
    MulPositive(b, c);
    var t := a / b;
    var q, r, s := t / c, t % c, a % b;
    assert t == q * c + r;
    assert a == t * b + s;
    Regroup(q, c, r, b);
    CarryLess(r, c, b, s);
    Swap(b, c);
    DivUnique(a, b * c, q, r * b + s);
  }

  lemma Regroup(q: nat, c: nat, r: nat, b: nat)
    ensures (q * c + r) * b == q * (b * c) + r * b
  {
    assert (q * c + r) * b == (q * c) * b + r * b;
    assert (q * c) * b == q * (c * b);
  }

  lemma Swap(b: nat, c: nat)
    ensures b * c == c * b
  {
  }

  /** The indices address translation takes are the digits of the page number. */
  lemma {:induction false} IndicesAreDigits(pageSize: nat, depth: nat, virtualAddress: nat, level: nat)
    requires pageSize > 0 && level < depth
    ensures TableIndex(pageSize, depth, virtualAddress, level)
         == PagePath(pageSize, depth, virtualAddress / pageSize)[level]
  {
    var page := virtualAddress / pageSize;
    if level == depth - 1 {
      assert Pow(pageSize, 1) == pageSize * Pow(pageSize, 0) == pageSize;
    } else {
      IndicesAreDigits(pageSize, depth - 1, page, level);
      PowPositive(pageSize, depth - 1 - level);
      DivDiv(virtualAddress, pageSize, Pow(pageSize, depth - 1 - level));
    }
  }

  /** Folding the digits of a page number gives the page number back. */
  lemma {:induction false} PathNumberOfPagePath(base: nat, n: nat, page: nat)
    requires base > 0 && page < Pow(base, n)
    ensures PathNumber(base, PagePath(base, n, page)) == page
  {
    if n > 0 {
      var rest, q := PagePath(base, n - 1, page / base), page / base;
      assert page == q * base + page % base;
      Swap(base, Pow(base, n - 1));
      if q >= Pow(base, n - 1) {
        MulMonotone(Pow(base, n - 1), q, base);
        assert false;
      }
      PathNumberOfPagePath(base, n - 1, q);
      assert Parent(Child(rest, page % base)) == rest;
    }
  }

  /** Every path of digits is the digits of the number it folds to. */
  lemma {:induction false} PagePathOfPathNumber(base: nat, p: Path)
    requires base > 0 && Digits(base, p)
    ensures PagePath(base, |p|, PathNumber(base, p)) == p
    ensures PathNumber(base, p) < Pow(base, |p|)
  {
    if p != [] {
      var q := Parent(p);
      PagePathOfPathNumber(base, q);
      var n := PathNumber(base, q);
      DivUnique(n * base + Last(p), base, n, Last(p));
      assert p == Child(q, Last(p));
      CarryLess(n, Pow(base, |q|), base, Last(p));
      Swap(base, Pow(base, |q|));
    }
  }

  /** Distinct pages take distinct paths through the tables. */
  lemma DistinctPagesDistinctPaths(base: nat, n: nat, a: nat, b: nat)
    requires base > 0 && a < Pow(base, n) && b < Pow(base, n)
    ensures PagePath(base, n, a) == PagePath(base, n, b) <==> a == b
  {
    PathNumberOfPagePath(base, n, a);
    PathNumberOfPagePath(base, n, b);
  }

  /** For pages, search order is page-number order. */
  lemma {:induction false} BeforeIsLess(base: nat, a: Path, b: Path)
    requires base > 0 && |a| == |b| && Digits(base, a) && Digits(base, b)
    requires Before(a, b)
    ensures PathNumber(base, a) < PathNumber(base, b)
  {
    var k: nat :| k < |a| && k < |b| && a[..k] == b[..k] && a[k] < b[k];
    var a', b' := Parent(a), Parent(b);
    var x, y := PathNumber(base, a'), PathNumber(base, b');
    if k < |a'| {
      assert a'[..k] == a[..k] && b'[..k] == b[..k];
      BeforeIsLess(base, a', b');
      CarryLess(x, y, base, Last(a));
    } else {
      assert a' == a[..k] && b' == b[..k];
    }
  }
}
