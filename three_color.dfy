/**
 * THREE.Color of the vendored Three.js (src/js/Three.js): a colour kept as a
 * 24-bit integer together with its three channels as fractions of 255 and a CSS
 * "rgb(...)" string derived from them.
 */
module ThreeColor {
  import opened Strings

  const ColorRange := 0x100_0000

  /** Byte k (0 = lowest) of a non-negative integer. */
  function Channel(hex: int, k: nat): (c: int)
    requires 0 <= hex && k <= 2
    ensures 0 <= c < 256
  {
    if k == 0 then hex % 256 else if k == 1 then hex / 256 % 256 else hex / 0x1_0000 % 256
  }

  /**
   * `(~~ hex) & 0xffffff` for an integer argument: ToInt32 keeps the value modulo
   * 2^32 in two's complement, and the mask keeps its low 24 bits, which is the
   * value modulo 2^24 whatever its sign.
   */
  function Low24(value: int): (h: int)
    ensures 0 <= h < ColorRange
    ensures (value - h) % ColorRange == 0
    ensures 0 <= value < ColorRange ==> h == value
  {
    value % ColorRange
  }

  /** The three channels put back together give the colour. */
  lemma ChannelsRecompose(hex: int)
    requires 0 <= hex < ColorRange
    ensures Channel(hex, 2) * 0x1_0000 + Channel(hex, 1) * 256 + Channel(hex, 0) == hex
  {
    assert hex / 0x1_0000 < 256;
    assert hex / 256 == (hex / 0x1_0000) * 256 + hex / 256 % 256;
  }

  /** Two colours with the same channels are the same colour. */
  lemma ChannelsDetermineColor(a: int, b: int)
    requires 0 <= a < ColorRange && 0 <= b < ColorRange
    requires forall k :: 0 <= k <= 2 ==> Channel(a, k) == Channel(b, k)
    ensures a == b
  {
    ChannelsRecompose(a);
    ChannelsRecompose(b);
    assert Channel(a, 0) == Channel(b, 0) && Channel(a, 1) == Channel(b, 1) && Channel(a, 2) == Channel(b, 2);
  }

  /** The CSS string updateStyleString builds from three channel bytes. */
  function StyleString(red: nat, green: nat, blue: nat): string
  {
    "rgb(" + Join([NatToString(red), NatToString(green), NatToString(blue)], ',') + ")"
  }

  /**
   * The style string can be read back: between "rgb(" and ")" it splits at the
   * commas into exactly the three channels' decimal renderings.
   */
  lemma StyleStringReadsBack(red: nat, green: nat, blue: nat)
    ensures var s := StyleString(red, green, blue);
      |s| >= 5 && s[..4] == "rgb(" && s[|s| - 1] == ')' &&
      var parts := Split(s[4..|s| - 1], ',');
      |parts| == 3 && AllDigits(parts[0]) && AllDigits(parts[1]) && AllDigits(parts[2]) &&
      ParseDigits(parts[0]) == red && ParseDigits(parts[1]) == green && ParseDigits(parts[2]) == blue
  {
    var parts := [NatToString(red), NatToString(green), NatToString(blue)];
    var body := Join(parts, ',');
    var s := StyleString(red, green, blue);
    assert s == "rgb(" + body + ")";
    assert s[4..|s| - 1] == body;
    DigitsLackChar(parts[0], ',');
    DigitsLackChar(parts[1], ',');
    DigitsLackChar(parts[2], ',');
    SplitJoin(parts, ',');
    ParseNatToString(red);
    ParseNatToString(green);
    ParseNatToString(blue);
  }

  /** For a colour in a valid state, its style string alone determines it. */
  lemma StyleStringDeterminesColor(a: int, b: int)
    requires 0 <= a < ColorRange && 0 <= b < ColorRange
    requires StyleString(Channel(a, 2), Channel(a, 1), Channel(a, 0)) ==
             StyleString(Channel(b, 2), Channel(b, 1), Channel(b, 0))
    ensures a == b
  {
    StyleStringReadsBack(Channel(a, 2), Channel(a, 1), Channel(a, 0));
    StyleStringReadsBack(Channel(b, 2), Channel(b, 1), Channel(b, 0));
    forall k | 0 <= k <= 2 ensures Channel(a, k) == Channel(b, k) {
    }
    ChannelsDetermineColor(a, b);
  }

  class Color {
    /** The colour as 0xRRGGBB. */
    var hex: int
    /** The channels as fractions of 255. */
    var r: real
    var g: real
    var b: real
    /** The prototype default is true: setHex refreshes channels and style string. */
    var autoUpdate: bool
    var styleString: string

    /** The channels and the style string agree with hex. */
    predicate Valid()
      reads this
    {
      0 <= hex < ColorRange &&
      r * 255.0 == Channel(hex, 2) as real && g * 255.0 == Channel(hex, 1) as real &&
      b * 255.0 == Channel(hex, 0) as real &&
      styleString == StyleString(Channel(hex, 2), Channel(hex, 1), Channel(hex, 0))
    }

    /** new THREE.Color(hex): the prototype's autoUpdate, then setHex. */
    constructor (value: int)
      ensures autoUpdate && hex == Low24(value) && Valid()
    {
      autoUpdate := true;
      hex := Low24(value);
      new;
      UpdateRGB();
      UpdateStyleString();
    }

    /**
     * setHex: keep the low 24 bits; with autoUpdate, refresh the channels and the
     * style string from them, otherwise leave both as they were.
     */
    method SetHex(value: int)
      modifies this
      ensures hex == Low24(value) && autoUpdate == old(autoUpdate)
      ensures autoUpdate ==> Valid()
      ensures !autoUpdate ==> r == old(r) && g == old(g) && b == old(b) && styleString == old(styleString)
    {
      hex := Low24(value);
      if autoUpdate {
        UpdateRGB();
        UpdateStyleString();
      }
    }

    /** updateRGB: byte 2 of hex is red, byte 1 green, byte 0 blue, each divided by 255. */
    method UpdateRGB()
      requires 0 <= hex
      modifies this`r, this`g, this`b
      ensures r * 255.0 == Channel(hex, 2) as real && 0.0 <= r <= 1.0
      ensures g * 255.0 == Channel(hex, 1) as real && 0.0 <= g <= 1.0
      ensures b * 255.0 == Channel(hex, 0) as real && 0.0 <= b <= 1.0
    {
      r := (hex / 0x1_0000 % 256) as real / 255.0;
      g := (hex / 256 % 256) as real / 255.0;
      b := (hex % 256) as real / 255.0;
    }

    /** updateStyleString: "rgb(R,G,B)" with each channel scaled back to 0..255 and truncated. */
    method UpdateStyleString()
      requires 0.0 <= r && 0.0 <= g && 0.0 <= b
      modifies this`styleString
      ensures styleString == StyleString((r * 255.0).Floor, (g * 255.0).Floor, (b * 255.0).Floor)
    {
      styleString := StyleString((r * 255.0).Floor, (g * 255.0).Floor, (b * 255.0).Floor);
    }
  }
}
