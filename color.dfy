/** The hex codec and clamp of the colour service
    (backend/src/services/utils/color.ts).  Colours are `number[]`, here
    `seq<int>`; parseHex throws "Invalid hex", here `Failure(InvalidHex)`. */
module Color {
  import opened Wrappers
  import opened Js

  datatype ColorError = InvalidHex

  /** `replace(/^#/, "")`: one leading '#' goes, nothing else. */
  function StripHash(s: string): (r: string)
    ensures s == "#" + r || (r == s && (s == [] || s[0] != '#'))
  {
    if s != [] && s[0] == '#' then s[1..] else s
  }

  /** The pattern `^([0-9a-fA-F]{3}|[0-9a-fA-F]{6})$`. */
  predicate IsHexBody(s: string) {
    (|s| == 3 || |s| == 6) && AllHexDigits(s)
  }

  /** What parseHex tests against the pattern. */
  function Cleaned(hex: string): string {
    StripHash(Trim(hex))
  }

  /** The six digits parseHex reads: a 3-digit body has each digit doubled. */
  function FullDigits(body: string): (full: string)
    requires IsHexBody(body)
    ensures |full| == 6 && AllHexDigits(full)
  {
    if |body| == 3 then DoubleEach(body) else body
  }

  predicate Channels(rgb: seq<int>) {
    forall i :: 0 <= i < |rgb| ==> 0 <= rgb[i] < 256
  }

  /** parseHex: accepts exactly the inputs whose cleaned form is 3 or 6 hex
      digits, and then yields three channels in 0..255. */
  function ParseHex(hex: string): (r: Result<seq<int>, ColorError>)
    ensures r.Success? <==> IsHexBody(Cleaned(hex))
    ensures r.Success? ==> |r.value| == 3 && Channels(r.value)
  {
    var cleaned := Cleaned(hex);
    if !IsHexBody(cleaned) then Failure(InvalidHex)
    else
      var num := ParseIntHex(FullDigits(cleaned));
      Success([ShiftAnd255(num, 16), ShiftAnd255(num, 8), ShiftAnd255(num, 0)])
  }

  /** The channels are the values of the three digit pairs of the expanded
      body: the shifts and masks pick out exactly those pairs. */
  lemma ParseHexChannels(hex: string)
    requires IsHexBody(Cleaned(hex))
    ensures var full := FullDigits(Cleaned(hex));
            ParseHex(hex) == Success([PairValue(full, 0), PairValue(full, 2), PairValue(full, 4)])
  {
    ChannelsOfDigits(FullDigits(Cleaned(hex)));
  }

  /** `(num >> 16) & 255`, `(num >> 8) & 255` and `num & 255` of
      `parseInt(full, 16)` are the three digit pairs of `full`. */
  lemma ChannelsOfDigits(full: string)
    requires |full| == 6 && AllHexDigits(full)
    ensures var num := ParseIntHex(full);
            [ShiftAnd255(num, 16), ShiftAnd255(num, 8), ShiftAnd255(num, 0)]
            == [PairValue(full, 0), PairValue(full, 2), PairValue(full, 4)]
  {
    ParseIntHexOfDigits(full);
    HexValue6(full);
    BytesOfPairs(PairValue(full, 0), PairValue(full, 2), PairValue(full, 4));
  }

  lemma BytesOfPairs(p0: nat, p1: nat, p2: nat)
    requires p0 < 256 && p1 < 256 && p2 < 256
    ensures var n := p0 * 65536 + p1 * 256 + p2;
            ToInt32(n) == n && n / 65536 % 256 == p0 && n / 256 % 256 == p1 && n % 256 == p2
  {
    var n := p0 * 65536 + p1 * 256 + p2;
    assert n / 65536 == p0;
    assert n / 256 == p0 * 256 + p1;
  }

  /** The 3-digit form reads like the 6-digit form with every digit doubled,
      so each channel is 17 times its digit. */
  lemma ShortFormExpands(hex: string)
    requires IsHexBody(Cleaned(hex)) && |Cleaned(hex)| == 3
    ensures ParseHex(hex) == ParseHex(DoubleEach(Cleaned(hex)))
    ensures forall k :: 0 <= k < 3 ==> ParseHex(hex).value[k] == 17 * DigitValue(Cleaned(hex)[k])
  {
    var body := Cleaned(hex);
    var full := DoubleEach(body);
    assert !IsWhiteSpace(full[0]) && !IsWhiteSpace(full[5]) && full[0] != '#';
    TrimUnchanged(full);
    assert Cleaned(full) == full;
    ParseHexChannels(hex);
    ParseHexChannels(full);
  }

  /** `rgb.map((v) => v.toString(16).padStart(2, "0")).join("")`; channels
      in 0..255 give two lower-case digits each, high digit first. */
  function JoinHex2(rgb: seq<int>): (s: string)
    ensures Channels(rgb) ==> |s| == 2 * |rgb|
    ensures Channels(rgb) ==> forall i :: 0 <= i < |rgb| ==>
              s[2 * i] == LowerDigit(rgb[i] / 16) && s[2 * i + 1] == LowerDigit(rgb[i] % 16)
  {
    if rgb == [] then ""
    else
      var rest := JoinHex2(rgb[1..]);
      if Channels(rgb) then
        Hex2OfByte(rgb[0]);
        assert forall i :: 1 <= i < |rgb| ==> rgb[i] == rgb[1..][i - 1];
        Hex2(rgb[0]) + rest
      else Hex2(rgb[0]) + rest
  }

  /** toHex: "#" and two lower-case, zero-padded digits per channel. */
  function ToHex(rgb: seq<int>): (s: string)
    ensures Channels(rgb) ==> |s| == 1 + 2 * |rgb| && s[0] == '#'
    ensures Channels(rgb) ==> forall i :: 0 <= i < |rgb| ==>
              s[1 + 2 * i] == LowerDigit(rgb[i] / 16) && s[2 + 2 * i] == LowerDigit(rgb[i] % 16)
  {
    "#" + JoinHex2(rgb)
  }

  /** What toHex writes for three channels, digit by digit. */
  lemma ToHexOfBytes(rgb: seq<int>)
    requires |rgb| == 3 && Channels(rgb)
    ensures ToHex(rgb) == "#" + [LowerDigit(rgb[0] / 16), LowerDigit(rgb[0] % 16),
                                 LowerDigit(rgb[1] / 16), LowerDigit(rgb[1] % 16),
                                 LowerDigit(rgb[2] / 16), LowerDigit(rgb[2] % 16)]
  {
    var s := ToHex(rgb);
    assert s[1] == LowerDigit(rgb[0] / 16) && s[2] == LowerDigit(rgb[0] % 16);
    assert s[1 + 2 * 1] == LowerDigit(rgb[1] / 16) && s[2 + 2 * 1] == LowerDigit(rgb[1] % 16);
    assert s[1 + 2 * 2] == LowerDigit(rgb[2] / 16) && s[2 + 2 * 2] == LowerDigit(rgb[2] % 16);
  }

  /** "#" and six hex digits parse to the three digit pairs. */
  lemma ParseHashedDigits(body: string)
    requires |body| == 6 && AllHexDigits(body)
    ensures ParseHex("#" + body) == Success([PairValue(body, 0), PairValue(body, 2), PairValue(body, 4)])
  {
    var s := "#" + body;
    assert s[|s| - 1] == body[5];
    TrimUnchanged(s);
    assert s[1..] == body;
    assert Cleaned(s) == body;
    ChannelsOfDigits(body);
  }

  /** Round trip: parsing what toHex writes gives the channels back. */
  lemma ParseToHex(r: int, g: int, b: int)
    requires 0 <= r < 256 && 0 <= g < 256 && 0 <= b < 256
    ensures ParseHex(ToHex([r, g, b])) == Success([r, g, b])
  {
    var rgb := [r, g, b];
    ToHexOfBytes(rgb);
    var body := [LowerDigit(rgb[0] / 16), LowerDigit(rgb[0] % 16),
                 LowerDigit(rgb[1] / 16), LowerDigit(rgb[1] % 16),
                 LowerDigit(rgb[2] / 16), LowerDigit(rgb[2] % 16)];
    ParseHashedDigits(body);
    ByteDigits(r);
    ByteDigits(g);
    ByteDigits(b);
    assert PairValue(body, 0) == r && PairValue(body, 2) == g && PairValue(body, 4) == b;
  }

  /** The two digits written for a channel read back as the channel. */
  lemma ByteDigits(v: int)
    requires 0 <= v < 256
    ensures 16 * DigitValue(LowerDigit(v / 16)) + DigitValue(LowerDigit(v % 16)) == v
  {
  }

  /** Writing a pair's value back gives the pair's digits in lower case. */
  lemma PairDigits(s: string, i: nat)
    requires i + 1 < |s| && IsHexDigit(s[i]) && IsHexDigit(s[i + 1])
    ensures LowerDigit(PairValue(s, i) / 16) == LowerChar(s[i])
    ensures LowerDigit(PairValue(s, i) % 16) == LowerChar(s[i + 1])
  {
    var p := PairValue(s, i);
    assert p / 16 == DigitValue(s[i]) && p % 16 == DigitValue(s[i + 1]);
  }

  /** toHex of a parsed colour is the input's canonical form: "#" and the six
      expanded digits in lower case. */
  lemma ToHexOfParsed(hex: string)
    requires ParseHex(hex).Success?
    ensures ToHex(ParseHex(hex).value) == "#" + ToLowerAscii(FullDigits(Cleaned(hex)))
  {
    ParseHexChannels(hex);
    ToHexOfDigits(FullDigits(Cleaned(hex)));
  }

  /** The three pairs of six hex digits, written back by toHex. */
  lemma ToHexOfDigits(full: string)
    requires |full| == 6 && AllHexDigits(full)
    ensures ToHex([PairValue(full, 0), PairValue(full, 2), PairValue(full, 4)]) == "#" + ToLowerAscii(full)
  {
    ToHexOfBytes([PairValue(full, 0), PairValue(full, 2), PairValue(full, 4)]);
    LowerPairs(full);
  }

  /** Six hex digits in lower case are the digits of their three pairs. */
  lemma LowerPairs(full: string)
    requires |full| == 6 && AllHexDigits(full)
    ensures ToLowerAscii(full)
         == [LowerDigit(PairValue(full, 0) / 16), LowerDigit(PairValue(full, 0) % 16),
             LowerDigit(PairValue(full, 2) / 16), LowerDigit(PairValue(full, 2) % 16),
             LowerDigit(PairValue(full, 4) / 16), LowerDigit(PairValue(full, 4) % 16)]
  {
    PairDigits(full, 0);
    PairDigits(full, 2);
    PairDigits(full, 4);
    var low := ToLowerAscii(full);
    assert low == [low[0], low[1], low[2], low[3], low[4], low[5]];
  }

  /** Canonicalising twice changes nothing: toHex(parseHex(s)) parses to the
      same colour and serialises to itself. */
  lemma CanonicalIsStable(hex: string)
    requires ParseHex(hex).Success?
    ensures var once := ToHex(ParseHex(hex).value);
            ParseHex(once) == ParseHex(hex) && ToHex(ParseHex(once).value) == once
  {
    var rgb := ParseHex(hex).value;
    ParseToHex(rgb[0], rgb[1], rgb[2]);
    assert [rgb[0], rgb[1], rgb[2]] == rgb;
  }

  /** clamp(v, min, max) = Math.min(max, Math.max(min, v)). */
  function Clamp(v: real, min: real, max: real): (r: real)
    ensures min <= max ==> min <= r <= max
    ensures min <= v <= max ==> r == v
    ensures min > max ==> r == max
  {
    var lower := if min > v then min else v;
    if max < lower then max else lower
  }
}
