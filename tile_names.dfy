/** The image filenames a decoded byte stands for: its two upper-case
    hexadecimal digits and ".png" on the bottom layer, with the prefix "pik"
    on the overlay layer. */
module TileNames {
  import opened Basics

  /** The two layers of a decoded card. */
  datatype Layer = Bottom | Overlay

  /** Upper-case hexadecimal digit of a value below 16. */
  function HexDigit(d: int): char
    requires 0 <= d < 16
  {
    if d < 10 then ('0' as int + d) as char else ('A' as int + d - 10) as char
  }

  /** The value of an upper-case hexadecimal digit; None for any other character. */
  function HexValue(ch: char): (d: Option<int>)
    ensures d.Some? ==> 0 <= d.value < 16 && HexDigit(d.value) == ch
  {
    if '0' <= ch <= '9' then Some(ch as int - '0' as int)
    else if 'A' <= ch <= 'F' then Some(ch as int - 'A' as int + 10)
    else None
  }

  lemma HexDigitRoundTrip(d: int)
    requires 0 <= d < 16
    ensures HexValue(HexDigit(d)) == Some(d)
  {
  }

  /** A byte as exactly two upper-case hexadecimal digits, high digit first,
      as the `02X` format writes it. */
  function Hex2(b: Byte): (h: string)
    ensures |h| == 2
    ensures HexValue(h[0]).Some? && HexValue(h[1]).Some?
    ensures 16 * HexValue(h[0]).value + HexValue(h[1]).value == b
  {
    HexDigitRoundTrip(b / 16);
    HexDigitRoundTrip(b % 16);
    [HexDigit(b / 16), HexDigit(b % 16)]
  }

  /** Name of the image drawn for byte `b` on `layer`: six characters on the
      bottom layer, nine on the overlay (see TileNameShape). */
  function TileName(layer: Layer, b: Byte): (name: string)
    ensures |name| == (if layer == Bottom then 6 else 9)
  {
    match layer
    case Bottom => Hex2(b) + ".png"
    case Overlay => "pik" + Hex2(b) + ".png"
  }

  /** A tile name is the two hexadecimal digits of the byte followed by
      ".png", with the prefix "pik" on the overlay layer. */
  lemma TileNameShape(layer: Layer, b: Byte)
    ensures var name := TileName(layer, b);
            var digits := if layer == Bottom then 0 else 3;
            && name[|name| - 4..] == ".png"
            && (layer == Overlay ==> name[..3] == "pik")
            && name[digits..digits + 2] == Hex2(b)
  {
  }

  /** Reads back the byte of a bottom-layer name `HH.png`. */
  function ParseHexName(name: string): (b: Option<Byte>)
    ensures b.Some? ==> name == Hex2(b.value) + ".png"
  {
    if |name| == 6 && name[2..] == ".png" then
      match (HexValue(name[0]), HexValue(name[1]))
      case (Some(hi), Some(lo)) =>
        assert name == [name[0], name[1]] + name[2..];
        Some(hi * 16 + lo)
      case _ => None
    else None
  }

  /** Reads back the byte a tile name stands for on `layer`; None for any
      name that layer never uses. */
  function ParseTileName(layer: Layer, name: string): (b: Option<Byte>)
    ensures b.Some? ==> name == TileName(layer, b.value)
  {
    match layer
    case Bottom => ParseHexName(name)
    case Overlay =>
      if |name| >= 3 && name[..3] == "pik" then
        var b := ParseHexName(name[3..]);
        assert name == name[..3] + name[3..];
        b
      else None
  }

  /** Round trip: the byte is recovered from the name drawn for it. */
  lemma {:induction false} TileNameRoundTrip(layer: Layer, b: Byte)
    ensures ParseTileName(layer, TileName(layer, b)) == Some(b)
  {
    var hex := Hex2(b);
    HexDigitRoundTrip(b / 16);
    HexDigitRoundTrip(b % 16);
    var name := hex + ".png";
    assert name[2..] == ".png";
    assert name[0] == HexDigit(b / 16) && name[1] == HexDigit(b % 16);
    assert ParseHexName(name) == Some(b);
    if layer == Overlay {
      var full := "pik" + name;
      assert full[..3] == "pik" && full[3..] == name;
    }
  }

  /** A name stands for exactly one byte: `ParseTileName(layer, name) == Some(b)`
      if and only if `name` is the name drawn for `b` on `layer`. */
  lemma TileNameExact(layer: Layer, name: string, b: Byte)
    ensures ParseTileName(layer, name) == Some(b) <==> name == TileName(layer, b)
  {
    TileNameRoundTrip(layer, b);
  }

  /** The naming is injective across both layers: different bytes, or the
      same byte on different layers, never share an image name. */
  lemma TileNamesInjective(l1: Layer, b1: Byte, l2: Layer, b2: Byte)
    ensures TileName(l1, b1) == TileName(l2, b2) ==> l1 == l2 && b1 == b2
  {
    TileNameRoundTrip(l1, b1);
    TileNameRoundTrip(l2, b2);
    assert |TileName(l1, b1)| == (if l1 == Bottom then 6 else 9);
    assert |TileName(l2, b2)| == (if l2 == Bottom then 6 else 9);
  }
}
