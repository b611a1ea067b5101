/** `generateColors` of the dashboard component: `count` hues spread evenly
    around the colour wheel. Hues are exact reals here. */
module Palette {
  import opened ChartTypes

  /** JavaScript's `x % m`: the remainder of division truncated toward zero. */
  function JsRemainder(x: real, m: real): (r: real)
    requires m > 0.0
  {
    if x >= 0.0 then x - m * ((x / m).Floor as real)
    else x + m * ((-x / m).Floor as real)
  }

  /** `((i * 360) / count) % 360` */
  function Hue(i: nat, count: nat): real
    requires count > 0
  {
    JsRemainder((i * 360) as real / count as real, 360.0)
  }

  /** `hsla(${hue}, 70%, 50%, 0.5)` */
  function Background(hue: real): Color { Hsla(hue, 70, 50, 0.5) }

  /** `hsl(${hue}, 50%, 50%)` */
  function Border(hue: real): Color { Hsl(hue, 50, 50) }

  datatype Scheme = Scheme(backgroundColor: seq<Color>, borderColor: seq<Color>)

  /** What `generateColors(count)` returns. */
  function PaletteOf(count: nat): (p: Scheme)
    ensures |p.backgroundColor| == count && |p.borderColor| == count
  {
    Scheme(seq(count, i requires 0 <= i < count => Background(Hue(i, count))),
            seq(count, i requires 0 <= i < count => Border(Hue(i, count))))
  }

  /** The loop of `generateColors`: one push onto each list per index. */
  method GenerateColors(count: nat) returns (p: Scheme)
    ensures |p.backgroundColor| == count && |p.borderColor| == count
    ensures forall i :: 0 <= i < count ==>
      p.backgroundColor[i] == Background(Hue(i, count)) && p.borderColor[i] == Border(Hue(i, count))
    ensures p == PaletteOf(count)
  {
    var backgroundColor: seq<Color> := [];
    var borderColor: seq<Color> := [];
    var i := 0;
    while i < count
      invariant 0 <= i <= count
      invariant |backgroundColor| == i && |borderColor| == i
      invariant forall k :: 0 <= k < i ==>
        backgroundColor[k] == Background(Hue(k, count)) && borderColor[k] == Border(Hue(k, count))
    {
      var hue := JsRemainder((i * 360) as real / count as real, 360.0);
      backgroundColor := backgroundColor + [Background(hue)];
      borderColor := borderColor + [Border(hue)];
      i := i + 1;
    }
    p := Scheme(backgroundColor, borderColor);
  }

  lemma DivideMonotone(a: real, b: real, n: real)
    requires n > 0.0 && a < b
    ensures a / n < b / n
  {
  }

  /** For an index below `count` the hue is exactly `i*360/count`, inside
      [0, 360): the `% 360` never changes it. */
  lemma HueExact(i: nat, count: nat)
    requires i < count
    ensures Hue(i, count) == (i * 360) as real / count as real
    ensures 0.0 <= Hue(i, count) < 360.0
  {
  }

  /** Hues strictly increase with the index, so the colours are pairwise distinct. */
  lemma HueIncreasing(i: nat, j: nat, count: nat)
    requires i < j < count
    ensures Hue(i, count) < Hue(j, count)
  {
    HueExact(i, count);
    HueExact(j, count);
    var n := count as real;
    DivideMonotone((i * 360) as real, (j * 360) as real, n);
  }

  /** Neighbouring hues are `360/count` apart. */
  lemma HueEvenlySpaced(i: nat, count: nat)
    requires i + 1 < count
    ensures Hue(i + 1, count) - Hue(i, count) == 360.0 / count as real
  {
    HueExact(i, count);
    HueExact(i + 1, count);
    var n := count as real;
    assert ((i + 1) * 360) as real == (i * 360) as real + 360.0;
  }

  /** `generateColors(0)` performs no division and returns two empty lists. */
  lemma PaletteOfZero()
    ensures PaletteOf(0) == Scheme([], [])
  {
  }

  /** Distinct indices get distinct colours, background and border alike. */
  lemma PaletteDistinct(count: nat, i: nat, j: nat)
    requires i < count && j < count && i != j
    ensures PaletteOf(count).backgroundColor[i] != PaletteOf(count).backgroundColor[j]
    ensures PaletteOf(count).borderColor[i] != PaletteOf(count).borderColor[j]
  {
    if i < j { HueIncreasing(i, j, count); } else { HueIncreasing(j, i, count); }
  }
}
