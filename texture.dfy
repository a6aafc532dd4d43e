// texture.h: Perlin permutation tables and noise indexing, trilinear interpolation,
// and the constant, checker, noise and image textures.
module Textures {
  import opened Vectors
  import opened Draws

  // ---------------------------------------------------------------- permute

  /** The index a draw picks at step i of permute: int(drand48() * (i + 1)). */
  function SwapTarget(d: Drand, i: nat): (t: nat)
    ensures t <= i
  {
    ScaledDrawInRange(d, i);
    (d * (i + 1) as real).Floor
  }

  function Swap(s: seq<int>, i: nat, j: nat): (r: seq<int>)
    requires i < |s| && j < |s|
    ensures |r| == |s|
  {
    s[i := s[j]][j := s[i]]
  }

  /** The loop of permute from index i down to 1, reading draws from position pos on:
      the Fisher-Yates shuffle that the source performs in place. */
  function ShuffleFrom(s: seq<int>, i: int, drand: Stream, pos: nat): seq<int>
    requires i < |s|
    decreases i
  {
    if i <= 0 then s
    else ShuffleFrom(Swap(s, i, SwapTarget(drand(pos), i)), i - 1, drand, pos + 1)
  }

  lemma ShuffleStep(s: seq<int>, i: int, drand: Stream, pos: nat)
    requires 0 < i < |s|
    ensures ShuffleFrom(s, i, drand, pos) == ShuffleFrom(Swap(s, i, SwapTarget(drand(pos), i)), i - 1, drand, pos + 1)
  {
  }

  lemma SwapPermutes(s: seq<int>, i: nat, j: nat)
    requires i < |s| && j < |s|
    ensures multiset(Swap(s, i, j)) == multiset(s)
  {
  }

  /** permute leaves the same entries, each as many times: a permutation. */
  lemma {:induction false} ShufflePermutes(s: seq<int>, i: int, drand: Stream, pos: nat)
    requires i < |s|
    ensures |ShuffleFrom(s, i, drand, pos)| == |s|
    ensures multiset(ShuffleFrom(s, i, drand, pos)) == multiset(s)
    decreases i
  {
    if i > 0 {
      var t := SwapTarget(drand(pos), i);
      SwapPermutes(s, i, t);
      ShufflePermutes(Swap(s, i, t), i - 1, drand, pos + 1);
    }
  }

  /** permute(p, n) at its one call site, n == p.Length: from i = n - 1 down to 1,
      swap p[i] with p[target], target drawn in [0, i]. Reads draws from position
      `pos` on and returns the position after them. */
  method Permute(p: array<int>, drand: Stream, pos: nat) returns (next: nat)
    modifies p
    ensures p[..] == ShuffleFrom(old(p[..]), p.Length - 1, drand, pos)
    ensures multiset(p[..]) == multiset(old(p[..]))
    ensures next == pos + if p.Length > 0 then p.Length - 1 else 0
  {
    var i := p.Length - 1;
    next := pos;
    while i > 0
      invariant -1 <= i < p.Length
      invariant p.Length > 0 ==> i >= 0
      invariant next == pos + (p.Length - 1 - i)
      invariant ShuffleFrom(old(p[..]), p.Length - 1, drand, pos) == ShuffleFrom(p[..], i, drand, next)
    {
      SwapWithDrawn(p, i, drand, next);
      i := i - 1;
      next := next + 1;
    }
    ShufflePermutes(old(p[..]), p.Length - 1, drand, pos);
  }

  /** One iteration of permute's loop: swap p[i] with the cell the draw at `next`
      picks in [0, i]. */
  method SwapWithDrawn(p: array<int>, i: nat, drand: Stream, next: nat)
    requires 0 < i < p.Length
    modifies p
    ensures ShuffleFrom(old(p[..]), i, drand, next) == ShuffleFrom(p[..], i - 1, drand, next + 1)
  {
    var target := SwapTarget(drand(next), i);
    SwapCells(p, i, target);
    ShuffleStep(old(p[..]), i, drand, next);
  }

  /** The three assignments through `tmp` that exchange p[i] and p[j]. */
  method SwapCells(p: array<int>, i: nat, j: nat)
    requires i < p.Length && j < p.Length
    modifies p
    ensures p[..] == Swap(old(p[..]), i, j)
  {
    var tmp := p[i];
    p[i] := p[j];
    p[j] := tmp;
  }

  /** The identity table [0, 1, ..., n - 1]. */
  function Iota(n: nat): (s: seq<int>)
    ensures |s| == n
  {
    if n == 0 then [] else Iota(n - 1) + [n - 1]
  }

  lemma {:induction false} IotaAt(n: nat)
    ensures forall k :: 0 <= k < n ==> Iota(n)[k] == k
  {
    if n > 0 {
      IotaAt(n - 1);
    }
  }

  lemma {:induction false} IotaCounts(n: nat, v: int)
    ensures multiset(Iota(n))[v] == if 0 <= v < n then 1 else 0
  {
    if n > 0 {
      IotaCounts(n - 1, v);
      var m := multiset(Iota(n - 1));
      assert multiset(Iota(n)) == m + multiset{n - 1};
      assert (m + multiset{n - 1})[v] == m[v] + multiset{n - 1}[v];
    }
  }

  /** The table perlinGeneratePerm builds: the identity on 0..255, shuffled. */
  function PermTable(drand: Stream, pos: nat): seq<int> {
    ShuffleFrom(Iota(256), 255, drand, pos)
  }

  /** A table of 256 entries, each in [0, 255]: what Perlin::noise indexes with. */
  predicate ByteTable(s: seq<int>) {
    |s| == 256 && forall k :: 0 <= k < 256 ==> 0 <= s[k] < 256
  }

  /** perlinGeneratePerm's table holds each of 0..255 exactly once, whatever the draws. */
  lemma PermTableIsPermutation(drand: Stream, pos: nat)
    ensures |PermTable(drand, pos)| == 256
    ensures forall v :: 0 <= v < 256 ==> multiset(PermTable(drand, pos))[v] == 1
    ensures ByteTable(PermTable(drand, pos))
  {
    var t := PermTable(drand, pos);
    ShufflePermutes(Iota(256), 255, drand, pos);
    forall v | 0 <= v < 256
      ensures multiset(t)[v] == 1
    {
      IotaCounts(256, v);
    }
    forall k | 0 <= k < 256
      ensures 0 <= t[k] < 256
    {
      assert t[k] in multiset(t);
      IotaCounts(256, t[k]);
    }
  }

  method PerlinGeneratePerm(drand: Stream, pos: nat) returns (p: array<int>, next: nat)
    ensures fresh(p) && p.Length == 256
    ensures p[..] == PermTable(drand, pos)
    ensures next == pos + 255
  {
    p := new int[256];
    for i := 0 to 256
      invariant forall k :: 0 <= k < i ==> p[k] == k
    {
      p[i] := i;
    }
    IotaAt(256);
    assert p[..] == Iota(256);
    next := Permute(p, drand, pos);
  }

  // ---------------------------------------------------------------- trilinearInterp

  /** The weight of corner coordinate i in {0, 1} at fraction u: i*u + (1-i)*(1-u). */
  function Weight(i: int, u: real): real {
    i as real * u + (1 - i) as real * (1.0 - u)
  }

  /** The term the loops of trilinearInterp add for corner n = 4i + 2j + k of the
      flattened c[2][2][2]. */
  function Term(c: seq<real>, u: real, v: real, w: real, n: nat): real
    requires n < 8 && |c| == 8
  {
    Weight(n / 4, u) * Weight(n / 2 % 2, v) * Weight(n % 2, w) * c[n]
  }

  /** The accumulator of trilinearInterp after its first n terms. */
  function TermSum(c: seq<real>, u: real, v: real, w: real, n: nat): real
    requires n <= 8 && |c| == 8
  {
    if n == 0 then 0.0 else TermSum(c, u, v, w, n - 1) + Term(c, u, v, w, n - 1)
  }

  function Trilinear(c: seq<real>, u: real, v: real, w: real): real
    requires |c| == 8
  {
    TermSum(c, u, v, w, 8)
  }

  lemma TermOfCorner(c: seq<real>, u: real, v: real, w: real, i: int, j: int, k: int)
    requires |c| == 8 && 0 <= i < 2 && 0 <= j < 2 && 0 <= k < 2
    ensures Term(c, u, v, w, 4 * i + 2 * j + k) == Weight(i, u) * Weight(j, v) * Weight(k, w) * c[4 * i + 2 * j + k]
  {
    var n := 4 * i + 2 * j + k;
    assert n / 4 == i && n / 2 % 2 == j && n % 2 == k;
  }

  /** trilinearInterp over the flattened table, c[i][j][k] at index 4i + 2j + k. */
  method TrilinearInterp(c: seq<real>, u: real, v: real, w: real) returns (accum: real)
    requires |c| == 8
    ensures accum == Trilinear(c, u, v, w)
  {
    accum := 0.0;
    for i := 0 to 2
      invariant accum == TermSum(c, u, v, w, 4 * i)
    {
      for j := 0 to 2
        invariant accum == TermSum(c, u, v, w, 4 * i + 2 * j)
      {
        for k := 0 to 2
          invariant accum == TermSum(c, u, v, w, 4 * i + 2 * j + k)
        {
          TermOfCorner(c, u, v, w, i, j, k);
          accum := accum + Weight(i, u) * Weight(j, v) * Weight(k, w) * c[4 * i + 2 * j + k];
        }
      }
    }
  }

  /** At a corner of the unit cube the weights are 1 on that corner and 0 elsewhere. */
  lemma WeightAtCorner(i: int, u: int)
    requires 0 <= i < 2 && 0 <= u < 2
    ensures Weight(i, u as real) == if i == u then 1.0 else 0.0
  {
    if i == 0 {
      assert Weight(i, u as real) == 0.0 * (u as real) + 1.0 * (1.0 - u as real);
    } else {
      assert Weight(i, u as real) == 1.0 * (u as real) + 0.0 * (1.0 - u as real);
    }
  }

  lemma TermAtCorner(c: seq<real>, u: int, v: int, w: int, n: nat)
    requires |c| == 8 && n < 8
    requires 0 <= u < 2 && 0 <= v < 2 && 0 <= w < 2
    ensures Term(c, u as real, v as real, w as real, n) == if n == 4 * u + 2 * v + w then c[n] else 0.0
  {
    WeightAtCorner(n / 4, u);
    WeightAtCorner(n / 2 % 2, v);
    WeightAtCorner(n % 2, w);
  }

  lemma {:induction false} TermSumAtCorner(c: seq<real>, u: int, v: int, w: int, n: nat)
    requires |c| == 8 && n <= 8
    requires 0 <= u < 2 && 0 <= v < 2 && 0 <= w < 2
    ensures TermSum(c, u as real, v as real, w as real, n) == if 4 * u + 2 * v + w < n then c[4 * u + 2 * v + w] else 0.0
  {
    if n > 0 {
      TermSumAtCorner(c, u, v, w, n - 1);
      TermAtCorner(c, u, v, w, n - 1);
    }
  }

  /** trilinearInterp at a corner (u, v, w) of the unit cube returns c[u][v][w]. */
  lemma TrilinearAtCorner(c: seq<real>, u: int, v: int, w: int)
    requires |c| == 8
    requires 0 <= u < 2 && 0 <= v < 2 && 0 <= w < 2
    ensures Trilinear(c, u as real, v as real, w as real) == c[4 * u + 2 * v + w]
  {
    TermSumAtCorner(c, u, v, w, 8);
  }

  // ---------------------------------------------------------------- Perlin::noise

  /** The static tables of Perlin: 256 random floats and three permutation tables.
      Their initialisation at program start is not part of this model; they are a value. */
  datatype Perlin = Perlin(ranfloat: seq<real>, permX: seq<int>, permY: seq<int>, permZ: seq<int>)

  predicate PerlinWellFormed(t: Perlin) {
    |t.ranfloat| == 256 && ByteTable(t.permX) && ByteTable(t.permY) && ByteTable(t.permZ)
  }

  /** Tables built by perlinGeneratePerm are fit for Perlin. */
  lemma GeneratedTablesWellFormed(ranfloat: seq<real>, drand: Stream, px: nat, py: nat, pz: nat)
    requires |ranfloat| == 256
    ensures PerlinWellFormed(Perlin(ranfloat, PermTable(drand, px), PermTable(drand, py), PermTable(drand, pz)))
  {
    PermTableIsPermutation(drand, px);
    PermTableIsPermutation(drand, py);
    PermTableIsPermutation(drand, pz);
  }

  /** x & 255 on a two's-complement int: the residue of x modulo 256. */
  function Mask(x: int): (m: int)
    ensures 0 <= m < 256
    ensures (x - m) % 256 == 0
  {
    x % 256
  }

  /** The ranfloat index for lattice point (i, j, k): permX[i & 255] ^ permX[j & 255]
      ^ permX[k & 255]. All three lookups use permX, as the source does. */
  function Hash(perm: seq<int>, i: int, j: int, k: int): (n: int)
    requires ByteTable(perm)
    ensures 0 <= n < 256
  {
    ((perm[Mask(i)] as bv8) ^ (perm[Mask(j)] as bv8) ^ (perm[Mask(k)] as bv8)) as int
  }

  /** The fractional part x - floor(x). */
  function Frac(x: real): (f: real)
    ensures 0.0 <= f < 1.0
  {
    x - x.Floor as real
  }

  /** The Hermite smoothing u*u*(3-2u) of Perlin::noise. */
  function Smooth(u: real): real {
    u * u * (3.0 - 2.0 * u)
  }

  /** The corner values c[di][dj][dk] of the lattice cell with least corner (i, j, k). */
  function Corners(t: Perlin, i: int, j: int, k: int): (c: seq<real>)
    requires PerlinWellFormed(t)
    ensures |c| == 8
    ensures forall n :: 0 <= n < 8 ==> c[n] in t.ranfloat
  {
    seq(8, n requires 0 <= n < 8 => t.ranfloat[Hash(t.permX, i + n / 4, j + n / 2 % 2, k + n % 2)])
  }

  function NoiseAt(t: Perlin, p: Vector3): real
    requires PerlinWellFormed(t)
  {
    Trilinear(Corners(t, p.x.Floor, p.y.Floor, p.z.Floor), Smooth(Frac(p.x)), Smooth(Frac(p.y)), Smooth(Frac(p.z)))
  }

  /** Perlin::noise: the corner table is filled by three nested loops, then interpolated. */
  method Noise(t: Perlin, p: Vector3) returns (r: real)
    requires PerlinWellFormed(t)
    ensures r == NoiseAt(t, p)
  {
    var u, v, w := Frac(p.x), Frac(p.y), Frac(p.z);
    u, v, w := Smooth(u), Smooth(v), Smooth(w);
    var i, j, k := p.x.Floor, p.y.Floor, p.z.Floor;
    var c := new real[8];
    for di := 0 to 2
      invariant forall n :: 0 <= n < 4 * di ==> c[n] == Corners(t, i, j, k)[n]
    {
      for dj := 0 to 2
        invariant forall n :: 0 <= n < 4 * di + 2 * dj ==> c[n] == Corners(t, i, j, k)[n]
      {
        for dk := 0 to 2
          invariant forall n :: 0 <= n < 4 * di + 2 * dj + dk ==> c[n] == Corners(t, i, j, k)[n]
        {
          var n := 4 * di + 2 * dj + dk;
          assert n / 4 == di && n / 2 % 2 == dj && n % 2 == dk;
          c[n] := t.ranfloat[Hash(t.permX, i + di, j + dj, k + dk)];
        }
      }
    }
    assert c[..] == Corners(t, i, j, k);
    r := TrilinearInterp(c[..], u, v, w);
  }

  /** Perlin::noise reads only permX: permY and permZ never affect it. */
  lemma NoiseIgnoresPermYZ(t: Perlin, py: seq<int>, pz: seq<int>, p: Vector3)
    requires PerlinWellFormed(t) && ByteTable(py) && ByteTable(pz)
    ensures NoiseAt(t.(permY := py, permZ := pz), p) == NoiseAt(t, p)
  {
    assert Corners(t.(permY := py, permZ := pz), p.x.Floor, p.y.Floor, p.z.Floor)
        == Corners(t, p.x.Floor, p.y.Floor, p.z.Floor);
  }

  // ---------------------------------------------------------------- textures

  /** The Texture class hierarchy. A checker holds its two sub-textures in the
      order of its constructor, CheckerTexture(t0, t1) with even = t0 and odd = t1;
      an image texture holds its bytes, three per pixel, row by row. */
  datatype Texture =
    | Constant(color: Vector3)
    | Checker(even: Texture, odd: Texture)
    | NoiseTexture(noise: Perlin, scale: real)
    | Image(data: seq<bv8>, nx: int, ny: int)

  /** What value() relies on: Perlin tables of the right shape, and an image with
      at least one pixel and three bytes for each of its nx * ny pixels. */
  predicate TextureWellFormed(t: Texture) {
    match t
    case Constant(_) => true
    case Checker(even, odd) => TextureWellFormed(even) && TextureWellFormed(odd)
    case NoiseTexture(noise, _) => PerlinWellFormed(noise)
    case Image(data, nx, ny) => nx >= 1 && ny >= 1 && |data| >= 3 * nx * ny
  }

  /** A byte read as int(b) / 255.0. */
  function Channel(b: bv8): (r: real)
    ensures 0.0 <= r <= 1.0
  {
    (b as int) as real / 255.0
  }

  /** Clamping of the source's two steps `if (x < 0) x = 0; if (x > hi) x = hi;`. */
  function Clamp(x: int, hi: int): (r: int)
    requires hi >= 0
    ensures 0 <= r <= hi
    ensures 0 <= x <= hi ==> r == x
    ensures x < 0 ==> r == 0
    ensures x > hi ==> r == hi
  {
    var y := if x < 0 then 0 else x;
    if y > hi then hi else y
  }

  /** The byte offset of channel 0 of pixel (i, j) and the next two channels lie
      inside a buffer of nx * ny pixels. */
  lemma TexelInBounds(nx: int, ny: int, i: int, j: int)
    requires 0 <= i < nx && 0 <= j < ny
    ensures 0 <= 3 * i + 3 * nx * j
    ensures 3 * i + 3 * nx * j + 2 < 3 * nx * ny
  {
    assert nx * j <= nx * (ny - 1) by {
      assert nx * (ny - 1) - nx * j == nx * (ny - 1 - j);
    }
  }

  /** The column and row ImageTexture::value reads: u scaled to nx columns and
      (1 - v) to ny rows less 0.001, each truncated and then clamped (not wrapped). */
  function Texel(nx: int, ny: int, u: real, v: real): (ij: (int, int))
    requires nx >= 1 && ny >= 1
    ensures 0 <= ij.0 < nx && 0 <= ij.1 < ny
    ensures 0 <= Trunc(u * nx as real) < nx ==> ij.0 == Trunc(u * nx as real)
    ensures 0 <= Trunc((1.0 - v) * ny as real - 0.001) < ny ==> ij.1 == Trunc((1.0 - v) * ny as real - 0.001)
  {
    (Clamp(Trunc(u * nx as real), nx - 1), Clamp(Trunc((1.0 - v) * ny as real - 0.001), ny - 1))
  }

  function ImageColor(data: seq<bv8>, nx: int, ny: int, u: real, v: real): (c: Vector3)
    requires nx >= 1 && ny >= 1 && |data| >= 3 * nx * ny
    ensures 0.0 <= c.x <= 1.0 && 0.0 <= c.y <= 1.0 && 0.0 <= c.z <= 1.0
  {
    var (i, j) := Texel(nx, ny, u, v);
    TexelInBounds(nx, ny, i, j);
    Vector3(Channel(data[3 * i + 3 * nx * j]), Channel(data[3 * i + 3 * nx * j + 1]), Channel(data[3 * i + 3 * nx * j + 2]))
  }

  /** ImageTexture::value, clamping i and j step by step before the three reads. */
  method ImageValue(data: seq<bv8>, nx: int, ny: int, u: real, v: real) returns (c: Vector3)
    requires nx >= 1 && ny >= 1 && |data| >= 3 * nx * ny
    ensures c == ImageColor(data, nx, ny, u, v)
  {
    var i := Trunc(u * nx as real);
    var j := Trunc((1.0 - v) * ny as real - 0.001);
    if i < 0 {
      i := 0;
    }
    if j < 0 {
      j := 0;
    }
    if i > nx - 1 {
      i := nx - 1;
    }
    if j > ny - 1 {
      j := ny - 1;
    }
    TexelInBounds(nx, ny, i, j);
    var r := Channel(data[3 * i + 3 * nx * j]);
    var g := Channel(data[3 * i + 3 * nx * j + 1]);
    var b := Channel(data[3 * i + 3 * nx * j + 2]);
    c := Vector3(r, g, b);
  }

  /** Texture::value(u, v, p). The checker's sine product uses the injected sin. */
  function Value(t: Texture, u: real, v: real, p: Vector3, m: Math): Vector3
    requires TextureWellFormed(t)
  {
    match t
    case Constant(color) => color
    case Checker(even, odd) =>
      var sines := m.sin(10.0 * p.x) * m.sin(10.0 * p.y) * m.sin(10.0 * p.z);
      if sines < 0.0 then Value(odd, u, v, p, m) else Value(even, u, v, p, m)
    case NoiseTexture(noise, scale) => Scale(NoiseAt(noise, Scale(scale, p)), One)
    case Image(data, nx, ny) => ImageColor(data, nx, ny, u, v)
  }

  /** ConstantTexture ignores (u, v, p). */
  lemma ConstantIgnoresInputs(color: Vector3, u0: real, v0: real, p0: Vector3, u1: real, v1: real, p1: Vector3, m: Math)
    ensures Value(Constant(color), u0, v0, p0, m) == Value(Constant(color), u1, v1, p1, m) == color
  {
  }

  /** A checker of a texture with itself is that texture, whatever the sines. */
  lemma CheckerOfSame(t: Texture, u: real, v: real, p: Vector3, m: Math)
    requires TextureWellFormed(t)
    ensures Value(Checker(t, t), u, v, p, m) == Value(t, u, v, p, m)
  {
  }

  /** The checker picks `odd` exactly where the product of the three sines is
      negative and `even` everywhere else. */
  lemma CheckerSelects(even: Texture, odd: Texture, u: real, v: real, p: Vector3, m: Math)
    requires TextureWellFormed(even) && TextureWellFormed(odd)
    ensures var sines := m.sin(10.0 * p.x) * m.sin(10.0 * p.y) * m.sin(10.0 * p.z);
      Value(Checker(even, odd), u, v, p, m) == if sines < 0.0 then Value(odd, u, v, p, m) else Value(even, u, v, p, m)
  {
  }
}
