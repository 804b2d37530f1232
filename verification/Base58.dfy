/** Base58 text: numbers in base 58 with the leading zero bytes kept one for one. */
module Base58 {
  import opened Radix
  import opened BigNum
  import opened Sequences

  const B58: Base := 58

  /** Letter `c` of the alphabet: 1 to 9, A to Z without I and O, a to z without l. */
  function Letter(c: nat): char
    requires c < 58
  {
    if c < 9 then (49 + c) as char
    else if c < 17 then (56 + c) as char
    else if c < 22 then (57 + c) as char
    else if c < 33 then (58 + c) as char
    else if c < 44 then (64 + c) as char
    else (65 + c) as char
  }

  /** `strchr` in the alphabet: the place of a letter, or 58. */
  function Place(x: char): (c: nat)
    ensures c <= 58
  {
    var n := x as int;
    if 49 <= n <= 57 then n - 49
    else if 65 <= n <= 72 then n - 56
    else if 74 <= n <= 78 then n - 57
    else if 80 <= n <= 90 then n - 58
    else if 97 <= n <= 107 then n - 64
    else if 109 <= n <= 122 then n - 65
    else 58
  }

  /** The alphabet, in ascending order. */
  const NUMERALS: string := "123456789"
  const CAPITALS: string := "ABCDEFGHJKLMNPQRSTUVWXYZ"
  const SMALL: string := "abcdefghijkmnopqrstuvwxyz"

  function Alphabet(): string {
    NUMERALS + CAPITALS + SMALL
  }

  lemma NumeralLetters(c: nat)
    requires c < 9
    ensures |NUMERALS| == 9 && NUMERALS[c] == Letter(c)
  {
    assert NUMERALS[0] == '1' && NUMERALS[1] == '2' && NUMERALS[2] == '3' && NUMERALS[3] == '4';
    assert NUMERALS[4] == '5' && NUMERALS[5] == '6' && NUMERALS[6] == '7' && NUMERALS[7] == '8';
    assert NUMERALS[8] == '9';
  }

  lemma CapitalLetters(c: nat)
    requires c < 24
    ensures |CAPITALS| == 24 && CAPITALS[c] == Letter(9 + c)
  {
    assert CAPITALS[0] == 'A' && CAPITALS[1] == 'B' && CAPITALS[2] == 'C' && CAPITALS[3] == 'D';
    assert CAPITALS[4] == 'E' && CAPITALS[5] == 'F' && CAPITALS[6] == 'G' && CAPITALS[7] == 'H';
    assert CAPITALS[8] == 'J' && CAPITALS[9] == 'K' && CAPITALS[10] == 'L' && CAPITALS[11] == 'M';
    assert CAPITALS[12] == 'N' && CAPITALS[13] == 'P' && CAPITALS[14] == 'Q' && CAPITALS[15] == 'R';
    assert CAPITALS[16] == 'S' && CAPITALS[17] == 'T' && CAPITALS[18] == 'U' && CAPITALS[19] == 'V';
    assert CAPITALS[20] == 'W' && CAPITALS[21] == 'X' && CAPITALS[22] == 'Y' && CAPITALS[23] == 'Z';
  }

  lemma SmallLetters(c: nat)
    requires c < 25
    ensures |SMALL| == 25 && SMALL[c] == Letter(33 + c)
  {
    assert SMALL[0] == 'a' && SMALL[1] == 'b' && SMALL[2] == 'c' && SMALL[3] == 'd';
    assert SMALL[4] == 'e' && SMALL[5] == 'f' && SMALL[6] == 'g' && SMALL[7] == 'h';
    assert SMALL[8] == 'i' && SMALL[9] == 'j' && SMALL[10] == 'k' && SMALL[11] == 'm';
    assert SMALL[12] == 'n' && SMALL[13] == 'o' && SMALL[14] == 'p' && SMALL[15] == 'q';
    assert SMALL[16] == 'r' && SMALL[17] == 's' && SMALL[18] == 't' && SMALL[19] == 'u';
    assert SMALL[20] == 'v' && SMALL[21] == 'w' && SMALL[22] == 'x' && SMALL[23] == 'y';
    assert SMALL[24] == 'z';
  }

  lemma LettersInOrder(c: nat)
    requires c < 58
    ensures |Alphabet()| == 58 && Letter(c) == Alphabet()[c]
    ensures c > 0 ==> Letter(c - 1) < Letter(c)
  {
    NumeralLetters(if c < 9 then c else 0);
    CapitalLetters(if 9 <= c < 33 then c - 9 else 0);
    SmallLetters(if 33 <= c then c - 33 else 0);
  }

  /** `strchr` finds exactly the letters, each at its place. */
  lemma PlaceInAlphabet(x: char)
    ensures Place(x) < 58 <==> x in Alphabet()
    ensures Place(x) < 58 ==> Alphabet()[Place(x)] == x
  {
    hide Alphabet;
    LettersInOrder(0);
    if Place(x) < 58 {
      LettersInOrder(Place(x));
      LetterOfPlace(x);
    } else if x in Alphabet() {
      var c :| 0 <= c < |Alphabet()| && Alphabet()[c] == x;
      LettersInOrder(c);
      PlaceOfLetter(c);
    }
  }

  lemma PlaceOfLetter(c: nat)
    requires c < 58
    ensures Place(Letter(c)) == c
  {
  }

  lemma LetterOfPlace(x: char)
    requires Place(x) < 58
    ensures Letter(Place(x)) == x
  {
  }

  predicate IsSpace(x: char) {
    x == ' ' || (9 <= x as int <= 13)
  }

  /** The characters C calls space: tab, line feed, vertical tab, form feed, carriage return, blank. */
  lemma SpaceExactly(x: char)
    ensures IsSpace(x) <==> x in ['\t', '\n', 11 as char, 12 as char, '\r', ' ']
  {
  }

  function Text(d: seq<nat>): string
    requires Below(B58, d)
  {
    seq(|d|, i requires 0 <= i < |d| => Letter(d[i]))
  }

  /** Every character is in the alphabet. */
  ghost predicate Clean(s: string) {
    forall i :: 0 <= i < |s| ==> Place(s[i]) < 58
  }

  function Places(s: string): seq<nat> {
    seq(|s|, i requires 0 <= i < |s| => Place(s[i]))
  }

  lemma PlacesOfText(d: seq<nat>)
    requires Below(B58, d)
    ensures Clean(Text(d)) && Places(Text(d)) == d
  {
    forall i | 0 <= i < |d| ensures Place(Letter(d[i])) == d[i] {
      PlaceOfLetter(d[i]);
    }
  }

  lemma TextOfPlaces(s: string)
    requires Clean(s)
    ensures Below(B58, Places(s)) && Text(Places(s)) == s
  {
    forall i | 0 <= i < |s| ensures Letter(Place(s[i])) == s[i] {
      LetterOfPlace(s[i]);
    }
  }

  // ----- The specification -----

  function EncodeText(b: seq<nat>): string {
    ConvertBelow(BYTE, B58, b);
    Text(Convert(BYTE, B58, b))
  }

  function Spaces(s: string): (n: nat)
    ensures n <= |s|
    ensures forall i :: 0 <= i < n ==> IsSpace(s[i])
    ensures n < |s| ==> !IsSpace(s[n])
  {
    if |s| > 0 && IsSpace(s[0]) then 1 + Spaces(s[1..]) else 0
  }

  function Leading(s: string): (n: nat)
    ensures n <= |s|
    ensures forall i :: 0 <= i < n ==> Place(s[i]) < 58
    ensures n < |s| ==> Place(s[n]) == 58
  {
    if |s| > 0 && Place(s[0]) < 58 then 1 + Leading(s[1..]) else 0
  }

  /** The letters between leading and trailing space, if there is nothing else. */
  function Body(s: string): Option<string> {
    var t := s[Spaces(s)..];
    var n := Leading(t);
    if Spaces(t[n..]) == |t| - n then Some(t[..n]) else None
  }

  function DecodeText(s: string): Option<seq<nat>> {
    match Body(s)
    case None => None
    case Some(t) => Some(Convert(B58, BYTE, Places(t)))
  }

  lemma LetterIsNotSpace(x: char)
    requires Place(x) < 58
    ensures !IsSpace(x)
  {
  }

  lemma SpacesExactly(s: string, n: nat)
    requires n <= |s| && (forall i :: 0 <= i < n ==> IsSpace(s[i])) && (n < |s| ==> !IsSpace(s[n]))
    ensures Spaces(s) == n
  {
    hide Spaces, IsSpace;
  }

  lemma LeadingExactly(s: string, n: nat)
    requires n <= |s| && (forall i :: 0 <= i < n ==> Place(s[i]) < 58) && (n < |s| ==> Place(s[n]) == 58)
    ensures Leading(s) == n
  {
    hide Leading, Place;
  }

  ghost predicate Blank(w: string) {
    forall i :: 0 <= i < |w| ==> IsSpace(w[i])
  }

  lemma SpaceIsNotLetter(x: char)
    requires IsSpace(x)
    ensures Place(x) == 58
  {
  }

  /** Space around the letters is ignored, and nothing else is accepted. */
  lemma BodyExactly(s: string, t: string)
    ensures Body(s) == Some(t) <==> Clean(t) && exists v, w :: Blank(v) && Blank(w) && s == v + t + w
  {
    hide Body, Blank, Clean;
    if Body(s) == Some(t) {
      var v, w := BodyParts(s, t);
    }
    if Clean(t) && exists v, w :: Blank(v) && Blank(w) && s == v + t + w {
      var v, w :| Blank(v) && Blank(w) && s == v + t + w;
      Surrounded(v, t, w);
    }
  }

  lemma BodyParts(s: string, t: string) returns (v: string, w: string)
    requires Body(s) == Some(t)
    ensures Clean(t) && Blank(v) && Blank(w) && s == v + t + w
  {
    hide IsSpace, Place, Spaces, Leading;
    var u := s[Spaces(s)..];
    v, w := s[..Spaces(s)], u[Leading(u)..];
    assert u == t + w;
    assert s == v + u;
  }

  lemma Surrounded(v: string, t: string, w: string)
    requires Blank(v) && Clean(t) && Blank(w)
    ensures Body(v + t + w) == Some(t)
  {
    hide IsSpace, Place, Spaces, Leading;
    var s := v + t + w;
    if |t| > 0 {
      LetterIsNotSpace(t[0]);
      SpacesExactly(s, |v|);
      var u := s[|v|..];
      assert u == t + w;
      if |w| > 0 {
        SpaceIsNotLetter(w[0]);
      }
      LeadingExactly(u, |t|);
      assert u[|t|..] == w;
      SpacesExactly(w, |w|);
      assert u[..|t|] == t;
    } else {
      SpacesExactly(s, |s|);
      assert s[|s|..] == [];
      LeadingExactly([], 0);
      SpacesExactly([], 0);
      assert s[|s|..][..0] == t;
    }
  }

  // ----- Round trips -----

  lemma Unspaced(t: string)
    requires Clean(t)
    ensures Body(t) == Some(t)
  {
    Surrounded([], t, []);
    assert [] + t + [] == t;
  }

  /** Decoding undoes encoding, for every byte sequence. */
  lemma DecodeOfEncode(b: seq<nat>)
    requires Below(BYTE, b)
    ensures DecodeText(EncodeText(b)) == Some(b)
  {
    hide Convert, Body, Text, Places;
    var d := Convert(BYTE, B58, b);
    ConvertBelow(BYTE, B58, b);
    PlacesOfText(d);
    Unspaced(Text(d));
    ConvertBack(BYTE, B58, b);
  }

  /** Encoding undoes decoding, up to the space around the letters. */
  lemma EncodeOfDecode(s: string)
    requires DecodeText(s).Some?
    ensures Below(BYTE, DecodeText(s).value) && Some(EncodeText(DecodeText(s).value)) == Body(s)
  {
    hide Convert, Text, Places;
    var t := Body(s).value;
    BodyExactly(s, t);
    TextOfPlaces(t);
    ConvertBelow(B58, BYTE, Places(t));
    ConvertBack(B58, BYTE, Places(t));
  }

  lemma EncodeOfClean(s: string)
    requires Clean(s)
    ensures DecodeText(s).Some? && EncodeText(DecodeText(s).value) == s
  {
    hide Convert, Body, EncodeText;
    Unspaced(s);
    EncodeOfDecode(s);
  }
}
