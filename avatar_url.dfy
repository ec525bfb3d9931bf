/**
 * `generateAvatarUrl` of `src/utils/userAvatar.ts`: an ui-avatars.com URL made of the
 * username without spaces and a background colour derived from a random number in
 * [0, 1000000), which is a parameter here.
 */
module Avatar {

  const Prefix := "https://ui-avatars.com/api/?name="
  const BackgroundKey := "&background="
  /** The text colour `ffffff` and the size 256. */
  const Suffix := "&color=ffffff&size=256"

  const RandomRange: nat := 1000000
  const ColourWidth: nat := 6

  // ---------------------------------------------------------------------------------------
  // The name: `username.replace(/ /g, "")`

  function RemoveSpaces(s: string): (r: string)
    ensures ' ' !in r
    ensures |r| <= |s|
  {
    if s == [] then [] else (if s[0] == ' ' then [] else [s[0]]) + RemoveSpaces(s[1..])
  }

  /** Removing spaces works piecewise, keeps every other character, and changes nothing in a
      string without spaces: no character is altered or encoded. */
  lemma {:induction false} RemoveSpacesConcat(a: string, b: string)
    ensures RemoveSpaces(a + b) == RemoveSpaces(a) + RemoveSpaces(b)
  {
    if a == [] {
      assert a + b == b;
    } else {
      assert (a + b)[0] == a[0] && (a + b)[1..] == a[1..] + b;
      RemoveSpacesConcat(a[1..], b);
      var head: string := if a[0] == ' ' then [] else [a[0]];
      calc {
        RemoveSpaces(a + b);
        head + RemoveSpaces(a[1..] + b);
        head + (RemoveSpaces(a[1..]) + RemoveSpaces(b));
        { assert head + (RemoveSpaces(a[1..]) + RemoveSpaces(b)) == (head + RemoveSpaces(a[1..])) + RemoveSpaces(b); }
        (head + RemoveSpaces(a[1..])) + RemoveSpaces(b);
        RemoveSpaces(a) + RemoveSpaces(b);
      }
    }
  }

  lemma {:induction false} RemoveSpacesKeepsOthers(s: string, c: char)
    requires c != ' '
    ensures multiset(RemoveSpaces(s))[c] == multiset(s)[c]
  {
    if s != [] {
      RemoveSpacesKeepsOthers(s[1..], c);
      assert s == [s[0]] + s[1..];
    }
  }

  lemma {:induction false} RemoveSpacesIdentity(s: string)
    requires ' ' !in s
    ensures RemoveSpaces(s) == s
  {
    if s != [] {
      assert s == [s[0]] + s[1..];
      RemoveSpacesIdentity(s[1..]);
    }
  }

  // ---------------------------------------------------------------------------------------
  // The colour: `((randomId * 12345 + 100000) & 0xB0B0B0)`

  /** Bitwise `and` of two non-negative integers, bit by bit from the lowest. */
  function BitAnd(a: nat, b: nat): (r: nat)
    ensures r <= a && r <= b
  {
    if a == 0 || b == 0 then 0
    else 2 * BitAnd(a / 2, b / 2) + (if a % 2 == 1 && b % 2 == 1 then 1 else 0)
  }

  /** A value masked once has bits only where the mask has bits: masking it again changes
      nothing. */
  lemma {:induction false} BitAndIdempotent(a: nat, b: nat)
    ensures BitAnd(BitAnd(a, b), b) == BitAnd(a, b)
  {
    if a != 0 && b != 0 {
      BitAndIdempotent(a / 2, b / 2);
      var r := BitAnd(a, b);
      assert r / 2 == BitAnd(a / 2, b / 2);
      assert r % 2 == (if a % 2 == 1 && b % 2 == 1 then 1 else 0);
    }
  }

  /** Bit `i` of `x`, counting from the lowest. */
  predicate Bit(x: nat, i: nat)
  {
    if i == 0 then x % 2 == 1 else Bit(x / 2, i - 1)
  }

  /** `BitAnd` is bitwise: bit `i` of the result is set exactly when it is set in both operands. */
  lemma {:induction false} BitAndBits(a: nat, b: nat, i: nat)
    ensures Bit(BitAnd(a, b), i) == (Bit(a, i) && Bit(b, i))
  {
    if a == 0 || b == 0 {
      ZeroHasNoBits(i);
    } else if i > 0 {
      BitAndBits(a / 2, b / 2, i - 1);
      var r := BitAnd(a, b);
      assert r / 2 == BitAnd(a / 2, b / 2);
    }
  }

  lemma {:induction false} ZeroHasNoBits(i: nat)
    ensures !Bit(0, i)
  {
    if i > 0 { ZeroHasNoBits(i - 1); }
  }

  const ColourMask: nat := 0xB0B0B0

  /** `(randomId * 12345 + 100000) & 0xB0B0B0`. `&` first turns its operands into 32-bit
      integers (ToInt32: modulo 2^32, then signed); the mask's sign bit is clear, so the
      result is the `and` of the unsigned 32-bit patterns and is non-negative. */
  function ColourValue(randomId: nat): (v: nat)
    requires randomId < RandomRange
    ensures v <= ColourMask
    ensures BitAnd(v, ColourMask) == v
  {
    var wrapped := (randomId * 12345 + 100000) % 0x1_0000_0000;
    BitAndIdempotent(wrapped, ColourMask);
    BitAnd(wrapped, ColourMask)
  }

  // ---------------------------------------------------------------------------------------
  // Hexadecimal: `.toString(16).padStart(6, '0')`

  const HexAlphabet := "0123456789abcdef"

  predicate IsLowerHex(c: char)
  {
    '0' <= c <= '9' || 'a' <= c <= 'f'
  }

  function DigitValue(c: char): nat
  {
    if '0' <= c <= '9' then (c - '0') as nat
    else if 'a' <= c <= 'f' then (c - 'a') as nat + 10
    else 0
  }

  function HexDigit(d: nat): (c: char)
    requires d < 16
    ensures IsLowerHex(c) && DigitValue(c) == d
  {
    HexAlphabet[d]
  }

  /** The number a string of hex digits denotes. */
  function HexValue(s: string): nat
  {
    if s == [] then 0 else HexValue(s[..|s| - 1]) * 16 + DigitValue(s[|s| - 1])
  }

  function Pow16(k: nat): (p: nat)
    ensures p >= 1
  {
    if k == 0 then 1 else 16 * Pow16(k - 1)
  }

  /** `n.toString(16)` for a non-negative integer: lowercase digits, no leading zeros. */
  function ToHex(n: nat): (r: string)
    ensures 1 <= |r|
    ensures forall c :: c in r ==> IsLowerHex(c)
    ensures HexValue(r) == n
  {
    if n < 16 then
      [HexDigit(n)]
    else
      var r := ToHex(n / 16) + [HexDigit(n % 16)];
      assert r[..|r| - 1] == ToHex(n / 16);
      r
  }

  lemma {:induction false} ToHexFits(n: nat, k: nat)
    requires 1 <= k && n < Pow16(k)
    ensures |ToHex(n)| <= k
  {
    if n >= 16 {
      ToHexFits(n / 16, k - 1);
    }
  }

  function Repeat(c: char, k: nat): (r: string)
    ensures |r| == k && forall x :: x in r ==> x == c
  {
    if k == 0 then [] else [c] + Repeat(c, k - 1)
  }

  /** `s.padStart(width, fill)`. */
  function PadStart(s: string, width: nat, fill: char): (r: string)
    ensures |r| == if |s| < width then width else |s|
    ensures r == Repeat(fill, |r| - |s|) + s
  {
    if |s| >= width then s else Repeat(fill, width - |s|) + s
  }

  lemma {:induction false} LeadingZerosDoNotCount(k: nat, s: string)
    ensures HexValue(Repeat('0', k) + s) == HexValue(s)
  {
    if k > 0 {
      LeadingZerosDoNotCount(k - 1, s);
      assert Repeat('0', k) + s == ['0'] + (Repeat('0', k - 1) + s);
      LeadingZeroDoesNotCount(Repeat('0', k - 1) + s);
    } else {
      assert Repeat('0', k) + s == s;
    }
  }

  lemma {:induction false} LeadingZeroDoesNotCount(s: string)
    ensures HexValue(['0'] + s) == HexValue(s)
    decreases |s|
  {
    if s != [] {
      var t := ['0'] + s;
      assert t[..|t| - 1] == ['0'] + s[..|s| - 1];
      LeadingZeroDoesNotCount(s[..|s| - 1]);
    }
  }

  /** The background colour: exactly six lowercase hex digits denoting the masked value. */
  function Background(randomId: nat): (bg: string)
    requires randomId < RandomRange
    ensures |bg| == ColourWidth
    ensures forall c :: c in bg ==> IsLowerHex(c)
    ensures HexValue(bg) == ColourValue(randomId)
  {
    var v := ColourValue(randomId);
    var digits := ToHex(v);
    ToHexFits(v, ColourWidth);
    var bg := PadStart(digits, ColourWidth, '0');
    LeadingZerosDoNotCount(ColourWidth - |digits|, digits);
    bg
  }

  // ---------------------------------------------------------------------------------------
  // The URL

  lemma SplitFive(a: string, b: string, c: string, d: string, e: string)
    ensures var u := a + b + c + d + e;
      && u[..|a|] == a
      && u[|a|..|a| + |b|] == b
      && u[|a| + |b|..|a| + |b| + |c|] == c
      && u[|a| + |b| + |c|..|a| + |b| + |c| + |d|] == d
      && u[|a| + |b| + |c| + |d|..] == e
  {
  }

  /** The URL can be taken apart again: its fixed head and tail, the space-free name between
      them, and the six-digit background right before the text colour. */
  function GenerateAvatarUrl(username: string, randomId: nat): (url: string)
    requires randomId < RandomRange
    ensures |url| == |Prefix| + |RemoveSpaces(username)| + 40
    ensures url[..|Prefix|] == Prefix
    ensures url[|Prefix|..|url| - 40] == RemoveSpaces(username)
    ensures url[|url| - 40..|url| - 28] == BackgroundKey
    ensures url[|url| - 28..|url| - 22] == Background(randomId)
    ensures url[|url| - 22..] == Suffix
  {
    var name, bg := RemoveSpaces(username), Background(randomId);
    assert |BackgroundKey| == 12 && |Suffix| == 22;
    SplitFive(Prefix, name, BackgroundKey, bg, Suffix);
    Prefix + name + BackgroundKey + bg + Suffix
  }
}
