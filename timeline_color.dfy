/** `generateColor` of the memories timeline: a shift-and-subtract hash of the
    submitter's name picks one of six colours. */
module TimelineColor {
  import opened Js

  /** The palette, in the order the source lists it
      (red, green, blue, purple, orange, pink). */
  const Palette: seq<string> := [
    "rgb(239, 68, 68)", "rgb(34, 197, 94)", "rgb(59, 130, 246)",
    "rgb(168, 85, 247)", "rgb(249, 115, 22)", "rgb(236, 72, 153)"
  ]

  /** One turn of the loop: the code unit plus the difference between the
      hash shifted left by five and the hash. Modulo 2^32 this is the code
      unit plus 31 times the 32-bit image of the hash.
      Only the shift wraps to 32 bits; the addition and the subtraction are
      done on numbers, so `hash` itself is not kept in 32 bits. */
  function HashStep(hash: int, code: CodeUnit): (r: int)
    ensures (r - (code + 31 * ToInt32(hash))) % 0x1_0000_0000 == 0
  {
    ShiftLeftFive(hash);
    assert (hash - ToInt32(hash)) % 0x1_0000_0000 == 0 by {
      ToInt32Fixed(ToInt32(hash));
      ToInt32Congruent(hash, ToInt32(hash));
    }
    StepCongruent(hash, ToInt32(hash), ShiftLeft(hash, 5), code);
    code + (ShiftLeft(hash, 5) - hash)
  }

  /** The value of `hash` once the loop has consumed every code unit of `name`.
      The empty name hashes to 0 and a one-unit name to its code unit. */
  function NameHash(name: JsString): (h: int)
    ensures name == [] ==> h == 0
    ensures |name| == 1 ==> h == name[0]
  {
    if name == [] then 0
    else HashStep(NameHash(name[..|name| - 1]), name[|name| - 1])
  }

  /** The palette index: the absolute value of the hash modulo the palette size. */
  function ColorIndex(name: JsString): (i: nat)
    ensures i < |Palette|
    ensures name == [] ==> i == 0
  {
    Abs(NameHash(name)) % |Palette|
  }

  /** The colour `generateColor(name)` returns. */
  function ColorFor(name: JsString): (c: string)
    ensures c in Palette
    ensures name == [] ==> c == Palette[0]
  {
    Palette[ColorIndex(name)]
  }

  /** generateColor: the loop over the name's code units. */
  method GenerateColor(name: JsString) returns (color: string)
    ensures color == ColorFor(name)
    ensures color in Palette
  {
    var hash := 0;
    for i := 0 to |name|
      invariant hash == NameHash(name[..i])
    {
      assert name[..i + 1][..i] == name[..i];
      hash := name[i] + (ShiftLeft(hash, 5) - hash);
    }
    assert name[..|name|] == name;
    hash := Abs(hash);
    color := Palette[hash % |Palette|];
  }

  /** The familiar 31-multiplier string hash, wrapped to 32 bits after every
      step. The colour is computed from the unwrapped hash, not from its 32-bit
      image, so this hash and the lemma below relate the loop to a known hash
      but say nothing about which colour `generateColor` returns. */
  function HashCode31(name: JsString): (h: int)
    ensures -0x8000_0000 <= h < 0x8000_0000
  {
    if name == [] then 0
    else ToInt32(31 * HashCode31(name[..|name| - 1]) + name[|name| - 1])
  }

  /** Although `hash` is not wrapped, its 32-bit image is exactly the
      31-multiplier hash, since shifting left by five and subtracting the
      original multiplies by 31 modulo 2^32. */
  lemma {:induction false} NameHashWrapsToHashCode31(name: JsString)
    ensures ToInt32(NameHash(name)) == HashCode31(name)
  {
    if name != [] {
      var prefix, c := name[..|name| - 1], name[|name| - 1];
      NameHashWrapsToHashCode31(prefix);
      var h, H := NameHash(prefix), HashCode31(prefix);
      var shifted := ShiftLeft(h, 5);
      assert (h - H) % 0x1_0000_0000 == 0 by {
        ToInt32Fixed(H);
        ToInt32Congruent(h, H);
      }
      ShiftLeftFive(h);
      StepCongruent(h, H, shifted, c);
      assert NameHash(name) == c + (shifted - h);
      assert HashCode31(name) == ToInt32(31 * H + c);
      ToInt32Congruent(NameHash(name), 31 * H + c);
    }
  }

  /** The arithmetic of one step of NameHashWrapsToHashCode31. */
  lemma StepCongruent(h: int, H: int, s: int, c: int)
    requires (s - 32 * H) % 0x1_0000_0000 == 0
    requires (h - H) % 0x1_0000_0000 == 0
    ensures (c + (s - h) - (31 * H + c)) % 0x1_0000_0000 == 0
  {
    var k1, k2 := (s - 32 * H) / 0x1_0000_0000, (h - H) / 0x1_0000_0000;
    assert s - 32 * H == k1 * 0x1_0000_0000;
    assert h - H == k2 * 0x1_0000_0000;
    assert c + (s - h) - (31 * H + c) == (k1 - k2) * 0x1_0000_0000;
  }

  /** Each step adds at most 2^31 + 0xFFFF to the magnitude of `hash`. */
  lemma {:induction false} NameHashMagnitude(name: JsString)
    ensures Abs(NameHash(name)) <= |name| * 0x8000_FFFF
  {
    if name != [] {
      NameHashMagnitude(name[..|name| - 1]);
    }
  }

  /** For every name of up to four million code units, every value the loop
      computes has magnitude below 2^53, so JavaScript's double arithmetic
      is exact on it and agrees with the integer arithmetic of this model. */
  lemma NameHashIsExactInDoubles(name: JsString)
    requires |name| <= 4_000_000
    ensures Abs(NameHash(name)) + 0x8000_FFFF < 0x20_0000_0000_0000
  {
    NameHashMagnitude(name);
  }
}
