/**
  BT.709 luma and chroma in 16-bit fixed point, and how far a byte computed with it can be from
  the exact value of section 3 of ITU-R BT.709-6 for eight bits in limited range.
*/
module ColorTables {
  import opened Bilinear

  /** Which byte a table is for, and the channel of the source it is looked up with. */
  datatype Component = Y | U | V
  datatype Channel = Red | Green | Blue

  /** A source code value as a full-range level; limited-range sources are expanded. */
  function Level(limited: bool, n: Byte): (level: real)
    ensures 0.0 <= level <= 255.0
  {
    if !limited then n as real
    else if n < 16 then 0.0
    else if n > 235 then 255.0
    else (n - 16) as real * 255.0 / 219.0
  }

  /** Full range is taken as it is; limited range runs from 16 to 235 and is stretched evenly. */
  lemma LevelStretches(n: Byte)
    ensures Level(false, n) == n as real
    ensures n <= 16 ==> Level(true, n) == 0.0
    ensures n >= 235 ==> Level(true, n) == 255.0
    ensures 16 <= n < 235 ==> Level(true, n + 1) - Level(true, n) == 255.0 / 219.0
  {
  }

  /** To the nearest integer, halves away from zero. */
  function Nearest(x: real): int {
    if x >= 0.0 then (x + 0.5).Floor else -(0.5 - x).Floor
  }

  /** Quotient to the nearest integer, halves away from zero, with truncating division. */
  function Round(value: int, denominator: nat): int
    requires denominator > 0
  {
    if value >= 0 then (value + denominator / 2) / denominator else -((-value + denominator / 2) / denominator)
  }

  /** A level's share of a component, in 65536ths. With kr = 0.2126 and kb = 0.0722, kg is 0.7152,
      2 * (1 - kb) is 1.8556 and 2 * (1 - kr) is 1.5748. */
  function Share(component: Component, channel: Channel, level: real): real {
    match component
    case Y =>
      (match channel
       case Red => level * 0.2126 * 219.0 / 255.0 * 65536.0
       case Green => level * (1.0 - 0.2126 - 0.0722) * 219.0 / 255.0 * 65536.0
       case Blue => level * 0.0722 * 219.0 / 255.0 * 65536.0)
    case U =>
      (match channel
       case Red => level * (-0.2126 / (2.0 * (1.0 - 0.0722))) * 224.0 / 255.0 * 65536.0
       case Green => level * (-(1.0 - 0.2126 - 0.0722) / (2.0 * (1.0 - 0.0722))) * 224.0 / 255.0 * 65536.0
       case Blue => level * 0.5 * 224.0 / 255.0 * 65536.0)
    case V =>
      (match channel
       case Red => level * 0.5 * 224.0 / 255.0 * 65536.0
       case Green => level * (-(1.0 - 0.2126 - 0.0722) / (2.0 * (1.0 - 0.2126))) * 224.0 / 255.0 * 65536.0
       case Blue => level * (-0.0722 / (2.0 * (1.0 - 0.2126))) * 224.0 / 255.0 * 65536.0)
  }

  function Fixed(limited: bool, component: Component, channel: Channel, n: Byte): int {
    Nearest(Share(component, channel, Level(limited, n)))
  }

  datatype Rgb = Rgb(r: Byte, g: Byte, b: Byte)

  function Sum(limited: bool, component: Component, p: Rgb): int {
    Fixed(limited, component, Red, p.r) + Fixed(limited, component, Green, p.g) + Fixed(limited, component, Blue, p.b)
  }

  function LumaByte(sum: int): (byte: Byte) { Clamp(16 + Round(sum, 65536), 16, 235) }

  function ChromaByte(sum: int): (byte: Byte) { Clamp(128 + Round(sum, 4 * 65536), 16, 240) }

  // ---- the standard ----

  function Luma(r: real, g: real, b: real): real { 0.2126 * r + 0.7152 * g + 0.0722 * b }

  /** Luma over 219 steps from 16; the blue difference over 1.8556 and the red one over 1.5748
      over 224 steps around 128. */
  function Coded(component: Component, r: real, g: real, b: real): real {
    match component
    case Y => 16.0 + 219.0 * Luma(r, g, b) / 255.0
    case U => 128.0 + 224.0 * ((b - Luma(r, g, b)) / 1.8556) / 255.0
    case V => 128.0 + 224.0 * ((r - Luma(r, g, b)) / 1.5748) / 255.0
  }

  /** The standard's values of black, white and the primaries. */
  lemma KnownColours()
    ensures Coded(Y, 0.0, 0.0, 0.0) == 16.0 && Coded(Y, 255.0, 255.0, 255.0) == 235.0
    ensures Coded(Y, 255.0, 0.0, 0.0) == 16.0 + 219.0 * 0.2126 && Coded(Y, 0.0, 0.0, 255.0) == 16.0 + 219.0 * 0.0722
    ensures Coded(U, 0.0, 0.0, 255.0) == 240.0 && Coded(V, 255.0, 0.0, 0.0) == 240.0
    ensures forall grey: real :: Coded(U, grey, grey, grey) == Coded(V, grey, grey, grey) == 128.0
  {
  }

  function Exact(limited: bool, component: Component, p: Rgb): real {
    Coded(component, Level(limited, p.r), Level(limited, p.g), Level(limited, p.b))
  }

  // ---- how far apart they are ----

  const ERROR := 0.5 + 1.5 / 65536.0

  lemma RoundIsNear(value: int, denominator: nat)
    requires denominator > 0 && denominator % 2 == 0
    ensures -(denominator as int) <= 2 * (denominator * Round(value, denominator) - value) <= denominator
  {
  }

  function Zero(component: Component): real { if component == Y then 16.0 else 128.0 }

  /** The shares of the tables add up to the standard's value. */
  lemma SharesAddUp(component: Component, r: real, g: real, b: real)
    ensures Share(component, Red, r) + Share(component, Green, g) + Share(component, Blue, b)
            == (Coded(component, r, g, b) - Zero(component)) * 65536.0
  {
  }

  lemma SumIsNear(limited: bool, component: Component, p: Rgb)
    ensures -1.5 <= Sum(limited, component, p) as real - (Exact(limited, component, p) - Zero(component)) * 65536.0 <= 1.5
    ensures component == Y ==> 0.0 <= Exact(limited, component, p) - 16.0 <= 219.0
    ensures component != Y ==> -112.0 <= Exact(limited, component, p) - 128.0 <= 112.0
  {
    SharesAddUp(component, Level(limited, p.r), Level(limited, p.g), Level(limited, p.b));
  }

  /** A luma byte is within the error of the exact value; its clamp changes nothing. */
  lemma LumaAccurate(limited: bool, p: Rgb)
    ensures var sum, exact := Sum(limited, Y, p), Exact(limited, Y, p);
            LumaByte(sum) == 16 + Round(sum, 65536) && -ERROR <= LumaByte(sum) as real - exact <= ERROR
  {
  }

  /** Likewise a chroma byte for the mean of its four pixels, and the sum stays in 32 bits. */
  lemma ChromaAccurate(limited: bool, component: Component, p: Rgb, q: Rgb, r: Rgb, s: Rgb)
    requires component != Y
    ensures var sum := Sum(limited, component, p) + Sum(limited, component, q) + Sum(limited, component, r) + Sum(limited, component, s);
            var exact := (Exact(limited, component, p) + Exact(limited, component, q)
                          + Exact(limited, component, r) + Exact(limited, component, s)) / 4.0;
            && ChromaByte(sum) == 128 + Round(sum, 4 * 65536) && -ERROR <= ChromaByte(sum) as real - exact <= ERROR
            && -0x8000_0000 <= sum < 0x8000_0000
  {
    SumIsNear(limited, component, p);
    SumIsNear(limited, component, q);
    SumIsNear(limited, component, r);
    SumIsNear(limited, component, s);
    hide Sum, Exact, Round;
    RoundIsNear(Sum(limited, component, p) + Sum(limited, component, q) + Sum(limited, component, r) + Sum(limited, component, s), 4 * 65536);
  }
}
