/** hexToRgb of the front end (frontend/src/lib/convert.js): a parser that
    checks nothing.  Whatever the input, it yields three bytes. */
module Convert {
  import opened Wrappers
  import opened Js
  import Color
  import Census

  /** `s.replace("#", "")`: a string pattern replaces only its first
      occurrence, wherever it is. */
  function RemoveFirst(s: string, c: char): (r: string)
    ensures NoneOf(s, c) ==> r == s
    ensures !NoneOf(s, c) ==> exists i :: 0 <= i < |s| && s[i] == c && NoneOf(s[..i], c) && r == s[..i] + s[i + 1..]
  {
    if s == [] then s
    else if s[0] == c then
      assert NoneOf(s[..0], c);
      s[1..]
    else
      var t := s[1..];
      var rest := RemoveFirst(t, c);
      if NoneOf(t, c) then
        [s[0]] + rest
      else
        var i :| 0 <= i < |t| && t[i] == c && NoneOf(t[..i], c) && rest == t[..i] + t[i + 1..];
        FirstAfterHead(s, c, i);
        [s[0]] + rest
  }

  predicate NoneOf(s: string, c: char) {
    forall j :: 0 <= j < |s| ==> s[j] != c
  }

  lemma FirstAfterHead(s: string, c: char, i: nat)
    requires s != [] && s[0] != c && i < |s| - 1 && NoneOf(s[1..][..i], c)
    ensures NoneOf(s[..i + 1], c)
    ensures [s[0]] + (s[1..][..i] + s[1..][i + 1..]) == s[..i + 1] + s[i + 2..]
  {
    assert s[..i + 1] == [s[0]] + s[1..][..i];
    assert s[i + 2..] == s[1..][i + 1..];
  }

  /** hexToRgb */
  function HexToRgb(hex: string): Census.Rgb {
    var cleaned := RemoveFirst(hex, '#');
    var full := if |cleaned| == 3 then DoubleEach(cleaned) else cleaned;
    var num := ParseIntHex(full);
    Census.Rgb(ShiftAnd255(num, 16), ShiftAnd255(num, 8), ShiftAnd255(num, 0))
  }

  /** A string with no '#' loses nothing. */
  lemma RemoveFirstAbsent(s: string, c: char)
    requires NoneOf(s, c)
    ensures RemoveFirst(s, c) == s
  {
  }

  /** Only the first '#' goes: after a leading one, any other stays. */
  lemma RemoveFirstLeading(s: string, c: char)
    ensures RemoveFirst([c] + s, c) == s
  {
    assert ([c] + s)[1..] == s;
  }

  /** For a six-digit body, the channels are the values of its three digit
      pairs. */
  lemma HexToRgbPairs(hex: string)
    requires var cleaned := RemoveFirst(hex, '#'); |cleaned| == 6 && AllHexDigits(cleaned)
    ensures var full := RemoveFirst(hex, '#');
            HexToRgb(hex) == Census.Rgb(PairValue(full, 0), PairValue(full, 2), PairValue(full, 4))
  {
    Color.ChannelsOfDigits(RemoveFirst(hex, '#'));
  }

  /** A three-character body is read with every character doubled, so each
      channel of a three-digit body is 17 times its digit. */
  lemma HexToRgbShort(hex: string)
    requires var cleaned := RemoveFirst(hex, '#'); |cleaned| == 3 && AllHexDigits(cleaned)
    ensures var c := RemoveFirst(hex, '#');
            HexToRgb(hex) == Census.Rgb(17 * DigitValue(c[0]), 17 * DigitValue(c[1]), 17 * DigitValue(c[2]))
  {
    var c := RemoveFirst(hex, '#');
    var full := DoubleEach(c);
    DoubledPairs(c);
    Color.ChannelsOfDigits(full);
  }

  /** The pairs of a doubled three-digit string are 17 times each digit. */
  lemma DoubledPairs(c: string)
    requires |c| == 3 && AllHexDigits(c)
    ensures var full := DoubleEach(c);
            |full| == 6 && AllHexDigits(full) &&
            PairValue(full, 0) == 17 * DigitValue(c[0]) &&
            PairValue(full, 2) == 17 * DigitValue(c[1]) &&
            PairValue(full, 4) == 17 * DigitValue(c[2])
  {
    var full := DoubleEach(c);
    assert full == [c[0], c[0], c[1], c[1], c[2], c[2]] by {
      assert full[0] == c[0] && full[1] == c[0] && full[2] == c[1];
      assert full[3] == c[1] && full[4] == c[2] && full[5] == c[2];
    }
  }

  /** On an input that parseHex accepts and that has no white space around
      it, hexToRgb reads the same three channels. */
  lemma AgreesWithParseHex(hex: string)
    requires Color.ParseHex(hex).Success?
    requires hex == Trim(hex)
    ensures var rgb := Color.ParseHex(hex).value;
            HexToRgb(hex) == Census.Rgb(rgb[0], rgb[1], rgb[2])
  {
    var body := Color.Cleaned(hex);
    assert body == Color.StripHash(hex);
    assert RemoveFirst(hex, '#') == body by {
      if hex != [] && hex[0] == '#' {
        assert hex == [hex[0]] + body;
        RemoveFirstLeading(body, '#');
      } else {
        assert body == hex;
        RemoveFirstAbsent(hex, '#');
      }
    }
    Color.ParseHexChannels(hex);
    var full := Color.FullDigits(body);
    Color.ChannelsOfDigits(full);
  }

  /** Without the white-space condition the two parsers part: parseHex trims
      " abc" to "abc", hexToRgb reads the four characters as 0xabc. */
  lemma SurroundingSpaceDiffers()
    ensures Color.ParseHex(" abc") == Success([170, 187, 204])
    ensures HexToRgb(" abc") == Census.Rgb(0, 10, 188)
  {
    ParseSpacedShort();
    ReadSpacedShort();
  }

  lemma ParseSpacedShort()
    ensures Color.ParseHex(" abc") == Success([170, 187, 204])
  {
    var s := " abc";
    assert TrimStart(s) == "abc" by {
      assert IsWhiteSpace(s[0]) && s[1..] == "abc";
    }
    TrimUnchanged("abc");
    assert Color.Cleaned(s) == "abc";
    Color.ShortFormExpands(s);
  }

  lemma ReadSpacedShort()
    ensures HexToRgb(" abc") == Census.Rgb(0, 10, 188)
  {
    RemoveFirstAbsent(" abc", '#');
    ParseIntSpaced();
    BytesOfAbc();
  }

  lemma BytesOfAbc()
    ensures ShiftAnd255(Some(0xabc), 16) == 0
    ensures ShiftAnd255(Some(0xabc), 8) == 10
    ensures ShiftAnd255(Some(0xabc), 0) == 188
  {
    assert ToInt32(0xabc) == 0xabc;
  }

  lemma ParseIntSpaced()
    ensures ParseIntHex(" abc") == Some(0xabc)
  {
    var s := " abc";
    assert TrimStart(s) == "abc" by {
      assert IsWhiteSpace(s[0]) && s[1..] == "abc";
    }
    HexPrefixOfDigits("abc");
    HexValueOfAbc();
  }

  lemma HexValueOfAbc()
    ensures HexValue("abc") == 0xabc
  {
    assert "abc"[..2] == "ab" && "ab"[..1] == "a" && "a"[..0] == [];
  }

  /** hexToRgb reads back the upper-case colour keys of the selection
      worker. */
  lemma ReadsWorkerKeys(r: byte, g: byte, b: byte)
    ensures HexToRgb(Census.ToHex(r, g, b)) == Census.Rgb(r, g, b)
  {
    HashedPairs(Census.ToHex(r, g, b));
  }

  /** "#" and six hex digits read as the three digit pairs. */
  lemma HashedPairs(s: string)
    requires |s| == 7 && s[0] == '#' && forall i :: 1 <= i < 7 ==> IsHexDigit(s[i])
    ensures HexToRgb(s) == Census.Rgb(PairValue(s, 1), PairValue(s, 3), PairValue(s, 5))
  {
    var body := s[1..];
    assert RemoveFirst(s, '#') == body;
    assert AllHexDigits(body) by {
      forall i | 0 <= i < |body| ensures IsHexDigit(body[i]) {
        assert body[i] == s[i + 1];
      }
    }
    PairShift(s, 0);
    PairShift(s, 2);
    PairShift(s, 4);
    HexToRgbPairs(s);
  }

  lemma PairShift(s: string, i: nat)
    requires i + 2 < |s| && IsHexDigit(s[i + 1]) && IsHexDigit(s[i + 2])
    ensures PairValue(s[1..], i) == PairValue(s, i + 1)
  {
    assert s[1..][i] == s[i + 1] && s[1..][i + 1] == s[i + 2];
  }
}
