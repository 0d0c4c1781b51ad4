/** Base64 with the alphabet and padding of section 4 of RFC 4648. */
module Base64 {
  import opened Common

  type byte = bv8

  function Letters(first: char, n: nat): string
    requires first as int + n <= 0x80
  {
    seq(n, i requires 0 <= i < n => (first as int + i) as char)
  }

  const ALPHABET: string := Letters('A', 26) + Letters('a', 26) + Letters('0', 10) + "+/"

  // ---------------------------------------------------------------- three bytes and four sextets

  function Sextets(a: byte, b: byte, c: byte): (r: seq<byte>)
    ensures |r| == 4
  {
    [(a & 0xfc) >> 2,
     ((a & 0x03) << 4) + ((b & 0xf0) >> 4),
     ((b & 0x0f) << 2) + ((c & 0xc0) >> 6),
     c & 0x3f]
  }

  function Bytes(w: byte, x: byte, y: byte, z: byte): (r: seq<byte>)
    ensures |r| == 3
  {
    [(w << 2) + ((x & 0x30) >> 4),
     ((x & 0x0f) << 4) + ((y & 0x3c) >> 2),
     ((y & 0x03) << 6) + z]
  }

  lemma SextetsFit(a: byte, b: byte, c: byte)
    ensures forall i | 0 <= i < 4 :: Sextets(a, b, c)[i] < 64
  {
  }

  /** Read as numbers, first digit first, three bytes and their four sextets are the same 24 bits. */
  lemma SameBits(a: byte, b: byte, c: byte)
    ensures var s := Sextets(a, b, c);
            (a as bv24 << 16) | (b as bv24 << 8) | c as bv24
            == (s[0] as bv24 << 18) | (s[1] as bv24 << 12) | (s[2] as bv24 << 6) | s[3] as bv24
  {
  }

  /** The last two sextets are not needed for the first byte, nor the last one for the second. */
  lemma Regrouped(a: byte, b: byte, c: byte, y: byte, z: byte)
    ensures var s := Sextets(a, b, c);
            && Bytes(s[0], s[1], s[2], s[3]) == [a, b, c]
            && Bytes(s[0], s[1], s[2], z)[..2] == [a, b]
            && Bytes(s[0], s[1], y, z)[..1] == [a]
  {
  }

  // ---------------------------------------------------------------- the alphabet

  function CharOf(x: byte): char
    requires x < 64
  {
    ALPHABET[x as int]
  }

  function Chars(xs: seq<byte>): (r: string)
    requires forall i | 0 <= i < |xs| :: xs[i] < 64
    ensures |r| == |xs|
  {
    seq(|xs|, i requires 0 <= i < |xs| => CharOf(xs[i]))
  }

  function IndexOf(c: char, i: nat): (r: int)
    requires i <= |ALPHABET|
    ensures -1 <= r < |ALPHABET|
    decreases |ALPHABET| - i
  {
    if i == |ALPHABET| then -1 else if ALPHABET[i] == c then i else IndexOf(c, i + 1)
  }

  /** The index in the alphabet as one byte; what is not there comes out as the truncated npos. */
  function Index(c: char): byte {
    var i := IndexOf(c, 0);
    if i < 0 then 0xff else i as byte
  }

  predicate IsBase64(c: char) {
    '0' <= c <= '9' || 'A' <= c <= 'Z' || 'a' <= c <= 'z' || c == '+' || c == '/'
  }

  lemma AlphabetIs(i: nat)
    requires i < 64
    ensures |ALPHABET| == 64
    ensures ALPHABET[i] == if i < 26 then ('A' as int + i) as char
                           else if i < 52 then ('a' as int + (i - 26)) as char
                           else if i < 62 then ('0' as int + (i - 52)) as char
                           else if i == 62 then '+' else '/'
  {
  }

  lemma {:induction false} IndexIs(i: nat, k: nat)
    requires k <= i < |ALPHABET|
    ensures IndexOf(ALPHABET[i], k) == i
    decreases i - k
  {
    AlphabetIs(i);
    AlphabetIs(k);
    if k < i {
      IndexIs(i, k + 1);
    }
  }

  lemma CharIsIndexed(x: byte)
    requires x < 64
    ensures IsBase64(CharOf(x)) && Index(CharOf(x)) == x
  {
    AlphabetIs(x as int);
    IndexIs(x as int, 0);
  }

  // ---------------------------------------------------------------- whole strings

  function GroupChars(g: seq<byte>): string
    requires |g| == 3
  {
    SextetsFit(g[0], g[1], g[2]);
    Chars(Sextets(g[0], g[1], g[2]))
  }

  function Encoded(s: seq<byte>): string {
    if s == [] then ""
    else if |s| == 1 then SextetsFit(s[0], 0, 0); Chars(Sextets(s[0], 0, 0)[..2]) + "=="
    else if |s| == 2 then SextetsFit(s[0], s[1], 0); Chars(Sextets(s[0], s[1], 0)[..3]) + "="
    else GroupChars(s[..3]) + Encoded(s[3..])
  }

  /** Up to the first character outside the alphabet, padding included. */
  function Body(s: string): (r: string)
    ensures |r| <= |s| && r == s[..|r|]
  {
    if s == [] || !IsBase64(s[0]) then "" else [s[0]] + Body(s[1..])
  }

  /** The bytes of one group of up to four characters, one less than it has characters. */
  function GroupBytes(g: string): seq<byte>
    requires 1 <= |g| <= 4
  {
    Bytes(IndexAt(g, 0), IndexAt(g, 1), IndexAt(g, 2), IndexAt(g, 3))[..|g| - 1]
  }

  function IndexAt(g: string, i: nat): byte {
    if i < |g| then Index(g[i]) else 0xff
  }

  function DecodedBody(s: string): seq<byte> {
    if s == [] then []
    else if |s| < 4 then GroupBytes(s)
    else GroupBytes(s[..4]) + DecodedBody(s[4..])
  }

  function Decoded(s: string): seq<byte> {
    DecodedBody(Body(s))
  }

  // ---------------------------------------------------------------- the round trip

  predicate IsBody(s: string) {
    forall i | 0 <= i < |s| :: IsBase64(s[i])
  }

  lemma {:induction false} BodyOf(x: string, rest: string)
    requires IsBody(x)
    ensures Body(x + rest) == x + Body(rest)
  {
    if x == "" {
      assert x + rest == rest;
    } else {
      assert (x + rest)[1..] == x[1..] + rest;
      BodyOf(x[1..], rest);
    }
  }

  lemma CharsAreIndexed(xs: seq<byte>)
    requires forall i | 0 <= i < |xs| :: xs[i] < 64
    ensures IsBody(Chars(xs)) && forall i | 0 <= i < |xs| :: Index(Chars(xs)[i]) == xs[i]
  {
    forall i | 0 <= i < |xs| ensures IsBase64(Chars(xs)[i]) && Index(Chars(xs)[i]) == xs[i] {
      CharIsIndexed(xs[i]);
    }
  }

  /** The characters of the encoding that are not padding. */
  function Unpadded(s: seq<byte>): string {
    if s == [] then ""
    else if |s| == 1 then SextetsFit(s[0], 0, 0); Chars(Sextets(s[0], 0, 0)[..2])
    else if |s| == 2 then SextetsFit(s[0], s[1], 0); Chars(Sextets(s[0], s[1], 0)[..3])
    else GroupChars(s[..3]) + Unpadded(s[3..])
  }

  function Pad(s: seq<byte>): string {
    if |s| % 3 == 1 then "==" else if |s| % 3 == 2 then "=" else ""
  }

  /** The encoding ends in as many equals signs as bytes are missing from the last three. */
  lemma {:induction false} Padding(s: seq<byte>)
    ensures Encoded(s) == Unpadded(s) + Pad(s)
  {
    if |s| >= 3 {
      Padding(s[3..]);
      assert Pad(s) == Pad(s[3..]);
    }
  }

  /** Four characters for every three bytes. */
  lemma {:induction false} EncodedLength(s: seq<byte>)
    ensures |Encoded(s)| == 4 * ((|s| + 2) / 3)
  {
    if |s| >= 3 {
      EncodedLength(s[3..]);
    }
  }

  lemma {:induction false} UnpaddedIsBody(s: seq<byte>)
    ensures IsBody(Unpadded(s))
  {
    if |s| >= 3 {
      SextetsFit(s[0], s[1], s[2]);
      CharsAreIndexed(Sextets(s[0], s[1], s[2]));
      UnpaddedIsBody(s[3..]);
    } else if |s| == 2 {
      SextetsFit(s[0], s[1], 0);
      CharsAreIndexed(Sextets(s[0], s[1], 0)[..3]);
    } else if |s| == 1 {
      SextetsFit(s[0], 0, 0);
      CharsAreIndexed(Sextets(s[0], 0, 0)[..2]);
    }
  }

  lemma GroupRestored(s: seq<byte>)
    requires |s| >= 3
    ensures |Unpadded(s)| >= 4 && GroupBytes(Unpadded(s)[..4]) == s[..3] && Unpadded(s)[4..] == Unpadded(s[3..])
  {
    var first := Sextets(s[0], s[1], s[2]);
    SextetsFit(s[0], s[1], s[2]);
    CharsAreIndexed(first);
    Regrouped(s[0], s[1], s[2], 0, 0);
    assert Unpadded(s)[..4] == Chars(first);
  }

  lemma ThreeChars(g: string, w: byte, x: byte, y: byte)
    requires |g| == 3 && Index(g[0]) == w && Index(g[1]) == x && Index(g[2]) == y
    ensures DecodedBody(g) == Bytes(w, x, y, 0xff)[..2]
  {
  }

  lemma TwoRestored(s: seq<byte>)
    requires |s| == 2
    ensures DecodedBody(Unpadded(s)) == s
  {
    var t := Sextets(s[0], s[1], 0);
    SextetsFit(s[0], s[1], 0);
    CharsAreIndexed(t[..3]);
    ThreeChars(Chars(t[..3]), t[0], t[1], t[2]);
    Regrouped(s[0], s[1], 0, 0, 0xff);
    assert s == [s[0], s[1]];
  }

  lemma OneRestored(s: seq<byte>)
    requires |s| == 1
    ensures DecodedBody(Unpadded(s)) == s
  {
    SextetsFit(s[0], 0, 0);
    CharsAreIndexed(Sextets(s[0], 0, 0)[..2]);
    Regrouped(s[0], 0, 0, 0xff, 0xff);
  }

  lemma {:induction false} BodyDecodes(s: seq<byte>)
    ensures DecodedBody(Unpadded(s)) == s
  {
    if |s| >= 3 {
      GroupRestored(s);
      BodyDecodes(s[3..]);
      assert s == s[..3] + s[3..];
    } else if |s| == 2 {
      TwoRestored(s);
    } else if |s| == 1 {
      OneRestored(s);
    }
  }

  /** Decoding undoes encoding, for every sequence of bytes. */
  lemma RoundTrip(s: seq<byte>)
    ensures Decoded(Encoded(s)) == s
  {
    Padding(s);
    UnpaddedIsBody(s);
    BodyOf(Unpadded(s), Pad(s));
    assert Body(Pad(s)) == "";
    BodyDecodes(s);
  }

  // ---------------------------------------------------------------- which characters stand for which bytes

  /** Read as numbers, three bytes and four characters are the same 24 bits. */
  predicate SameGroup(g: seq<byte>, e: string) {
    && |g| == 3 && |e| == 4 && IsBody(e)
    && (g[0] as bv24 << 16) | (g[1] as bv24 << 8) | g[2] as bv24
       == (Index(e[0]) as bv24 << 18) | (Index(e[1]) as bv24 << 12) | (Index(e[2]) as bv24 << 6) | Index(e[3]) as bv24
  }

  lemma GroupIsSame(g: seq<byte>)
    requires |g| == 3
    ensures SameGroup(g, GroupChars(g))
  {
    SextetsFit(g[0], g[1], g[2]);
    CharsAreIndexed(Sextets(g[0], g[1], g[2]));
    SameBits(g[0], g[1], g[2]);
  }

  lemma {:induction false} GroupAt(s: seq<byte>, k: nat)
    requires 3 * k + 3 <= |s|
    ensures 4 * k + 4 <= |Encoded(s)| && Encoded(s)[4 * k..4 * k + 4] == GroupChars(s[3 * k..3 * k + 3])
  {
    var group, rest := GroupChars(s[..3]), Encoded(s[3..]);
    assert |group| == 4;
    if k == 0 {
      assert (group + rest)[0..4] == group;
    } else {
      GroupAt(s[3..], k - 1);
      SliceOfSlice(s, 3, |s|, 3 * k - 3, 3 * k);
      assert (group + rest)[4 * k..4 * k + 4] == rest[4 * k - 4..4 * k];
    }
  }

  /** The k-th four characters stand for the k-th three bytes. */
  lemma GroupsInOrder(s: seq<byte>, k: nat)
    requires 3 * k + 3 <= |s|
    ensures 4 * k + 4 <= |Encoded(s)| && SameGroup(s[3 * k..3 * k + 3], Encoded(s)[4 * k..4 * k + 4])
  {
    GroupAt(s, k);
    GroupIsSame(s[3 * k..3 * k + 3]);
  }

  /** Missing bytes are zeros: the characters of a short last group are those of the group filled up. */
  lemma {:induction false} FilledWithZeros(s: seq<byte>)
    requires |s| % 3 != 0
    ensures var filled := s + if |s| % 3 == 1 then [0, 0] else [0];
            Unpadded(s) <= Encoded(filled)
  {
    var zeros: seq<byte> := if |s| % 3 == 1 then [0, 0] else [0];
    if |s| >= 3 {
      FilledWithZeros(s[3..]);
      assert (s + zeros)[..3] == s[..3] && (s + zeros)[3..] == s[3..] + zeros;
    } else {
      ShortIsFilled(s, zeros);
    }
  }

  lemma ShortIsFilled(s: seq<byte>, zeros: seq<byte>)
    requires (|s| == 1 && zeros == [0, 0]) || (|s| == 2 && zeros == [0])
    ensures Unpadded(s) <= Encoded(s + zeros)
  {
    var g := s + zeros;
    SextetsFit(g[0], g[1], g[2]);
    assert g[..3] == g && g[3..] == [];
    assert Encoded(g) == GroupChars(g);
  }

  /** The first character outside the alphabet ends the text, whatever follows. */
  lemma DecodingStops(x: string, c: char, rest: string)
    requires IsBody(x) && !IsBase64(c)
    ensures Decoded(x + ([c] + rest)) == Decoded(x)
  {
    BodyOf(x, [c] + rest);
    BodyOf(x, "");
    assert x + "" == x;
  }

  /** Three bytes for every four characters, and one less than there are characters in the rest. */
  lemma {:induction false} DecodedLength(x: string)
    ensures |DecodedBody(x)| == |x| / 4 * 3 + if |x| % 4 == 0 then 0 else |x| % 4 - 1
  {
    if |x| >= 4 {
      DecodedLength(x[4..]);
    }
  }

  // ---------------------------------------------------------------- the loops

  /** The next place of a group buffer. */
  method Fill<T>(group: array<T>, i: nat, x: T)
    requires i < group.Length
    modifies group
    ensures group[..i + 1] == old(group[..i]) + [x]
  {
    group[i] := x;
  }

  lemma FlushedGroup(ret: string, g: seq<byte>, rest: seq<byte>)
    requires |g| == 3
    ensures ret + Encoded(g + rest) == ret + GroupChars(g) + Encoded(rest)
  {
    assert (g + rest)[..3] == g && (g + rest)[3..] == rest;
    Regroup(ret, GroupChars(g), Encoded(rest));
  }

  /** One byte into the group buffer, and a full buffer out into the text. */
  method EncodeNext(ret: string, three: array<byte>, i: nat, x: byte, ghost next: seq<byte>)
    returns (ret': string, i': nat)
    requires three.Length == 3 && i < 3
    modifies three
    ensures i' < 3 && ret' + Encoded(three[..i'] + next) == ret + Encoded(old(three[..i]) + ([x] + next))
  {
    Regroup(three[..i], [x], next);
    Fill(three, i, x);
    ret', i' := ret, i + 1;
    if i' == 3 {
      FlushedGroup(ret, three[..], next);
      assert three[..3] == three[..] && three[..0] + next == next;
      ret', i' := ret + GroupChars(three[..]), 0;
    }
  }

  method Encode(buf: seq<byte>) returns (ret: string)
    ensures ret == Encoded(buf)
  {
    ret := "";
    var three := new byte[3];
    var i: nat := 0;
    assert three[..0] + buf[0..] == buf;
    for k := 0 to |buf|
      invariant i < 3 && ret + Encoded(three[..i] + buf[k..]) == Encoded(buf)
    {
      assert buf[k..] == [buf[k]] + buf[k + 1..];
      ret, i := EncodeNext(ret, three, i, buf[k], buf[k + 1..]);
    }
    assert three[..i] + buf[|buf|..] == three[..i];
    if i > 0 {
      var rest := EncodeRest(three, i);
      ret := ret + rest;
    }
  }

  /** The last group, filled up with zeros. */
  method EncodeRest(three: array<byte>, count: nat) returns (ret: string)
    requires three.Length == 3 && 0 < count < 3
    modifies three
    ensures ret == Encoded(old(three[..count]))
  {
    var i := count;
    for j := i to 3
      invariant three[..count] == old(three[..count]) && forall l | i <= l < j :: three[l] == 0
    {
      three[j] := 0;
    }
    assert three[0] == three[..count][0] && (count == 2 ==> three[1] == three[..count][1]);
    SextetsFit(three[0], three[1], three[2]);
    ret := Chars(Sextets(three[0], three[1], three[2])[..i + 1]);
    while i < 3
      invariant count <= i <= 3
      invariant ret + (if i == 1 then "==" else if i == 2 then "=" else "") == Encoded(old(three[..count]))
    {
      ret := ret + "=";
      i := i + 1;
    }
  }

  lemma FullGroup(g: string)
    requires |g| == 4
    ensures GroupBytes(g) == Bytes(Index(g[0]), Index(g[1]), Index(g[2]), Index(g[3]))
  {
  }

  lemma FlushedBytes(ret: seq<byte>, g: string, rest: string)
    requires |g| == 4
    ensures ret + DecodedBody(g + rest) == ret + GroupBytes(g) + DecodedBody(rest)
  {
    assert (g + rest)[..4] == g && (g + rest)[4..] == rest;
    Regroup(ret, GroupBytes(g), DecodedBody(rest));
  }

  lemma NextInBody(s: string, k: nat)
    requires k < |s| && IsBase64(s[k])
    ensures Body(s[k..]) == [s[k]] + Body(s[k + 1..])
  {
    assert s[k..][1..] == s[k + 1..];
  }

  method DecodeNext(ret: seq<byte>, four: array<char>, i: nat, c: char, ghost next: string)
    returns (ret': seq<byte>, i': nat)
    requires four.Length == 4 && i < 4
    modifies four
    ensures i' < 4 && ret' + DecodedBody(four[..i'] + next) == ret + DecodedBody(old(four[..i]) + ([c] + next))
  {
    Regroup(four[..i], [c], next);
    Fill(four, i, c);
    ret', i' := ret, i + 1;
    if i' == 4 {
      FlushedBytes(ret, four[..], next);
      FullGroup(four[..]);
      assert four[..4] == four[..] && four[..0] + next == next;
      ret', i' := ret + Bytes(Index(four[0]), Index(four[1]), Index(four[2]), Index(four[3])), 0;
    }
  }

  method Decode(s: string) returns (ret: seq<byte>)
    ensures ret == Decoded(s)
  {
    ret := [];
    var four := new char[4];
    var i: nat, k: nat := 0, 0;
    assert s[0..] == s && four[..0] + Body(s) == Body(s);
    while k < |s| && s[k] != '=' && IsBase64(s[k])
      invariant i < 4 && k <= |s| && ret + DecodedBody(four[..i] + Body(s[k..])) == Decoded(s)
    {
      NextInBody(s, k);
      ret, i := DecodeNext(ret, four, i, s[k], Body(s[k + 1..]));
      k := k + 1;
    }
    assert Body(s[k..]) == "" && four[..i] + "" == four[..i];
    if i > 0 {
      var rest := DecodeRest(four, i);
      ret := ret + rest;
    }
  }

  lemma NulIsNoIndex(k: nat)
    requires k <= 64
    ensures IndexOf('\0', k) == -1
    decreases 64 - k
  {
    if k < 64 {
      AlphabetIs(k);
      NulIsNoIndex(k + 1);
    }
  }

  /** The last group, filled up with characters outside the alphabet. */
  method DecodeRest(four: array<char>, i: nat) returns (ret: seq<byte>)
    requires four.Length == 4 && 0 < i < 4
    modifies four
    ensures ret == DecodedBody(old(four[..i]))
  {
    for j := i to 4
      invariant four[..i] == old(four[..i]) && forall l | i <= l < j :: four[l] == '\0'
    {
      four[j] := '\0';
    }
    NulIsNoIndex(0);
    ghost var g := four[..i];
    assert forall l | 0 <= l < i :: four[l] == g[l];
    ret := Bytes(Index(four[0]), Index(four[1]), Index(four[2]), Index(four[3]))[..i - 1];
  }
}
