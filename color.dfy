// Color.py: RGB triples, the two rejection samplers that pick a random
// "vibrant" or "dull" colour, and the linear gradient between two colours.
module Colors {
  import opened Numeric

  /** An RGB colour; channels are Python ints. */
  datatype Rgb = Rgb(r: int, g: int, b: int)

  datatype Option<T> = None | Some(value: T)

  function Abs(x: int): nat { if x < 0 then -x else x }

  /** The sum of the pairwise channel distances: how far apart the three channels are. */
  function DiffSum(c: Rgb): nat { Abs(c.r - c.g) + Abs(c.g - c.b) + Abs(c.r - c.b) }

  /**
   * What one draw of three values without replacement from 0..255 gives: three distinct
   * values, each in 0..255.
   */
  predicate IsSample(c: Rgb)
  {
    0 <= c.r < 256 && 0 <= c.g < 256 && 0 <= c.b < 256 &&
    c.r != c.g && c.g != c.b && c.r != c.b
  }

  /** The acceptance test of `random_vibrant`. */
  predicate Vibrant(c: Rgb) { DiffSum(c) > 200 }

  /** The acceptance test of `random_dull`. */
  predicate Dull(c: Rgb)
  {
    var diff, total := DiffSum(c), c.r + c.g + c.b;
    diff > 80 && diff < 200 && total > 200 && total < 500
  }

  /**
   * `Color.random_vibrant`: draw samples until one is vibrant. `draws` is
   * the stream of samples the random source hands out; when it runs dry
   * without an accepted sample the source would keep looping, which the
   * model reports as None.
   */
  method RandomVibrant(draws: seq<Rgb>) returns (c: Option<Rgb>)
    requires forall i :: 0 <= i < |draws| ==> IsSample(draws[i])
    ensures c.Some? ==> IsSample(c.value) && Vibrant(c.value)
    ensures c.Some? ==> exists k :: 0 <= k < |draws| && draws[k] == c.value &&
                                    forall j :: 0 <= j < k ==> !Vibrant(draws[j])
    ensures c.None? ==> forall j :: 0 <= j < |draws| ==> !Vibrant(draws[j])
  {
    var i := 0;
    while i < |draws|
      invariant 0 <= i <= |draws|
      invariant forall j :: 0 <= j < i ==> !Vibrant(draws[j])
    {
      var sample := draws[i];
      if DiffSum(sample) > 200 {
        return Some(sample);
      }
      i := i + 1;
    }
    return None;
  }

  /** `Color.random_dull`: draw samples until one is dull; see RandomVibrant. */
  method RandomDull(draws: seq<Rgb>) returns (c: Option<Rgb>)
    requires forall i :: 0 <= i < |draws| ==> IsSample(draws[i])
    ensures c.Some? ==> IsSample(c.value) && Dull(c.value)
    ensures c.Some? ==> exists k :: 0 <= k < |draws| && draws[k] == c.value &&
                                    forall j :: 0 <= j < k ==> !Dull(draws[j])
    ensures c.None? ==> forall j :: 0 <= j < |draws| ==> !Dull(draws[j])
  {
    var i := 0;
    while i < |draws|
      invariant 0 <= i <= |draws|
      invariant forall j :: 0 <= j < i ==> !Dull(draws[j])
    {
      var sample := draws[i];
      var diffSum, totalSum := DiffSum(sample), sample.r + sample.g + sample.b;
      if diffSum > 80 && diffSum < 200 && totalSum > 200 && totalSum < 500 {
        return Some(sample);
      }
      i := i + 1;
    }
    return None;
  }

  /**
   * `ColorGradient`: the colours at both ends and the number of partitions
   * between them.
   */
  datatype ColorGradient = ColorGradient(c1: Rgb, c2: Rgb, parts: int)
  {
    /** The colour at partition `part`, channel by channel. */
    function GetColor(part: int): (c: Rgb)
      requires parts != 0
      ensures part == 0 ==> c == c1
      ensures part == parts ==> c == c2
    {
      LerpEnds(c1.r, c2.r, part, parts);
      LerpEnds(c1.g, c2.g, part, parts);
      LerpEnds(c1.b, c2.b, part, parts);
      Rgb(Lerp(c1.r, c2.r, part, parts),
          Lerp(c1.g, c2.g, part, parts),
          Lerp(c1.b, c2.b, part, parts))
    }
  }

  /** One channel: a plus the fraction part/parts (true division) of the width b - a, truncated toward zero. */
  function Lerp(a: int, b: int, part: int, parts: int): int
    requires parts != 0
  {
    Trunc(a as real + (part as real / parts as real) * (b - a) as real)
  }

  /** At partition 0 the channel is `a`; at partition `parts` it is `b`. */
  lemma LerpEnds(a: int, b: int, part: int, parts: int)
    requires parts != 0
    ensures part == 0 ==> Lerp(a, b, part, parts) == a
    ensures part == parts ==> Lerp(a, b, part, parts) == b
  {
    if part == parts {
      assert part as real / parts as real == 1.0;
    }
  }

  /** `part / parts` lies in [0,1] for 0 <= part <= parts. */
  lemma UnitFraction(part: int, parts: int)
    requires 0 <= part <= parts && parts != 0
    ensures 0.0 <= part as real / parts as real <= 1.0
  {
    var t, n := part as real / parts as real, parts as real;
    assert t * n == part as real;
  }

  function Min(a: int, b: int): int { if a <= b then a else b }
  function Max(a: int, b: int): int { if a <= b then b else a }

  /** A fraction t in [0,1] of a width w stays between 0 and w. */
  function Scale(t: real, w: real): (s: real)
    requires 0.0 <= t <= 1.0
    ensures w >= 0.0 ==> 0.0 <= s <= w
    ensures w < 0.0 ==> w <= s <= 0.0
  {
    ScaledWidth(t, w);
    t * w
  }

  lemma ScaledWidth(t: real, w: real)
    requires 0.0 <= t <= 1.0
    ensures w >= 0.0 ==> 0.0 <= t * w <= w
    ensures w < 0.0 ==> w <= t * w <= 0.0
  {
    if w >= 0.0 {
      assert t * w <= 1.0 * w;
    } else {
      assert t * (-w) <= 1.0 * (-w);
    }
  }

  /** The point a fraction t of the way from a to b lies between a and b. */
  function Interpolate(a: real, b: real, t: real): (x: real)
    requires 0.0 <= t <= 1.0
    ensures a <= b ==> a <= x <= b
    ensures b < a ==> b <= x <= a
  {
    a + Scale(t, b - a)
  }

  /** Between the two ends, one interpolated channel lies between the end channels. */
  lemma LerpBetween(a: int, b: int, part: int, parts: int)
    requires 0 <= part <= parts && parts != 0
    ensures Min(a, b) <= Lerp(a, b, part, parts) <= Max(a, b)
  {
    var t := part as real / parts as real;
    UnitFraction(part, parts);
    var x := Interpolate(a as real, b as real, t);
    assert (b - a) as real == b as real - a as real;
    TruncBetween(x, Min(a, b), Max(a, b));
  }

  /** For 0 <= part <= parts every channel of the result lies between those of c1 and c2. */
  lemma {:induction false} GetColorBetween(g: ColorGradient, part: int)
    requires 0 <= part <= g.parts && g.parts != 0
    ensures Min(g.c1.r, g.c2.r) <= g.GetColor(part).r <= Max(g.c1.r, g.c2.r)
    ensures Min(g.c1.g, g.c2.g) <= g.GetColor(part).g <= Max(g.c1.g, g.c2.g)
    ensures Min(g.c1.b, g.c2.b) <= g.GetColor(part).b <= Max(g.c1.b, g.c2.b)
  {
    LerpBetween(g.c1.r, g.c2.r, part, g.parts);
    LerpBetween(g.c1.g, g.c2.g, part, g.parts);
    LerpBetween(g.c1.b, g.c2.b, part, g.parts);
  }

  /** A channel of the result depends on that channel of the two ends only. */
  lemma GetColorChannelwise(g: ColorGradient, h: ColorGradient, part: int)
    requires g.parts == h.parts != 0
    ensures g.c1.r == h.c1.r && g.c2.r == h.c2.r ==> g.GetColor(part).r == h.GetColor(part).r
    ensures g.c1.g == h.c1.g && g.c2.g == h.c2.g ==> g.GetColor(part).g == h.GetColor(part).g
    ensures g.c1.b == h.c1.b && g.c2.b == h.c2.b ==> g.GetColor(part).b == h.GetColor(part).b
  {
  }
}
