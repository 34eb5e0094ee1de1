// Grid arithmetic shared by the FFT lookup tables of the potential code
// (libs/potentials/pot_3d_fft.cpp, pot_2d_fft.cpp): the oversampled table
// width, the odd number of z samples per slice, and the two ways of turning
// an FFT bin into a spatial frequency (signed, and mirrored).

module PotentialGrid {
  import opened Numerics
  import CellLayout

  /** OVERSAMPLING of libs/potentials/pot_base.hpp. */
  const Oversampling: int := 2

  /** The width of a lookup table: 2 * OVERSAMPLING * ceil(radius / d). */
  function LutWidth(radius: real, d: real): (n: int)
    requires d > 0.0
  {
    2 * Oversampling * Ceil(radius / d)
  }

  /** The table is a multiple of four samples wide and, at spacing
      d / OVERSAMPLING, spans at least the atom's diameter. */
  lemma LutWidthFacts(radius: real, d: real)
    requires d > 0.0 && radius > 0.0
    ensures LutWidth(radius, d) % 4 == 0 && LutWidth(radius, d) >= 4
    ensures (LutWidth(radius, d) as real) * (d / Oversampling as real) >= 2.0 * radius
  {
    var c := Ceil(radius / d);
    assert radius / d <= c as real;
    assert c >= 1;
    calc {
      (LutWidth(radius, d) as real) * (d / Oversampling as real);
      (4 * c) as real * (d / 2.0);
      2.0 * (c as real * d);
    >= { assert c as real * d >= (radius / d) * d; }
      2.0 * radius;
    }
  }

  /** The frequency step of a table of n samples at pixel size d, sampled
      OVERSAMPLING times per pixel: 0.5 * OVERSAMPLING / (n d). */
  function FreqStep(n: int, d: real): real
    requires n > 0 && d > 0.0
  {
    0.5 * Oversampling as real / (n as real * d)
  }

  /** The largest spatial frequency a table of n samples at step dk
      admits: 0.5 n dk / OVERSAMPLING. */
  function Cutoff(n: int, dk: real): real
  {
    0.5 * n as real * dk / Oversampling as real
  }

  /** The step is positive, and the cutoff is a quarter of the inverse
      pixel size, whatever n. */
  lemma CutoffIsQuarterOverD(n: int, d: real)
    requires n > 0 && d > 0.0
    ensures FreqStep(n, d) > 0.0
    ensures Cutoff(n, FreqStep(n, d)) == 0.25 / d
  {
    var m := n as real;
    assert m > 0.0;
    calc {
      0.5 * m * FreqStep(n, d) / 2.0;
      0.5 * m * (0.5 * 2.0 / (m * d)) / 2.0;
      0.25 * (m / (m * d));
      { assert m / (m * d) == 1.0 / d; }
      0.25 / d;
    }
  }

  /** n made odd by adding one to an even n. */
  function MakeOdd(n: int): (r: int)
    requires n >= 0
    ensures r % 2 == 1 && r >= 1
    ensures n % 2 == 1 ==> r == n
    ensures n % 2 == 0 ==> r == n + 1
  {
    if 2 * (n / 2) == n then n + 1 else n
  }

  /** The signed frequency of FFT bin i of n: i below n/2, i - n from
      there on. */
  function FreqIndex(i: int, n: int): int
    requires n > 0
  {
    if i < n / 2 then i else i - n
  }

  /** The signed index of a bin lies in [n/2 - n, n/2) and is congruent to
      the bin, so it names the same bin (the map is one-to-one). */
  lemma FreqIndexFacts(i: int, n: int)
    requires n > 0 && 0 <= i < n
    ensures n / 2 - n <= FreqIndex(i, n) < n / 2
    ensures FreqIndex(i, n) % n == i
    ensures (i < n / 2) <==> FreqIndex(i, n) >= 0
  {
    if i >= n / 2 {
      CellLayout.DigitsOf(i - n, n, -1, i);
    } else {
      CellLayout.DigitsOf(i, n, 0, i);
    }
  }

  /** The mirrored index of bin i of n (the 2D tables): the distance of the
      bin from the nearest multiple of n. */
  function Mirror(i: int, n: int): int
    requires n > 0
  {
    if i < n / 2 then i else n - i
  }

  /** The mirrored index is the magnitude of the signed one, hence never
      negative and at most (n + 1) / 2. */
  lemma MirrorIsMagnitude(i: int, n: int)
    requires n > 0 && 0 <= i < n
    ensures Mirror(i, n) == (if FreqIndex(i, n) < 0 then -FreqIndex(i, n) else FreqIndex(i, n))
    ensures 0 <= Mirror(i, n) <= (n + 1) / 2
  {
  }

  /** Flat index i + j*h of a two-index table of h columns: the pair is
      recovered from the flat index, and every flat index below h*m is
      reached from one pair. */
  lemma FlatIndex(i: int, j: int, h: int)
    requires 0 <= i < h && 0 <= j
    ensures (i + j * h) % h == i && (i + j * h) / h == j
  {
    CellLayout.DigitsOf(i + j * h, h, j, i);
  }

  lemma FlatIndexInRange(i: int, j: int, h: int, m: int)
    requires 0 <= i < h && 0 <= j < m
    ensures 0 <= i + j * h < h * m
  {
    CellLayout.MulMonotone(j, m - 1, h);
    assert (m - 1) * h == h * m - h;
  }

  lemma FlatIndexCovers(k: int, h: int, m: int)
    requires h > 0 && 0 <= k < h * m
    ensures 0 <= k % h < h && 0 <= k / h < m && k == k % h + (k / h) * h
  {
    CellLayout.DivMod(k, h);
    CellLayout.QuotientNonNegative(k, h);
    CellLayout.LtFromMul(k / h, m, h);
  }

  lemma FlatIndexInjective(i: int, j: int, i': int, j': int, h: int)
    requires 0 <= i < h && 0 <= i' < h && 0 <= j && 0 <= j'
    requires i + j * h == i' + j' * h
    ensures i == i' && j == j'
  {
    CellLayout.SplitUnique(j, i, j', i', h);
  }
}
