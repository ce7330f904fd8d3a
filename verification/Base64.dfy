/** The base64url decoder of auth/jwt.go, against the unpadded base64url encoding of
    section 5 of RFC 4648.  Go strings and byte slices are sequences of bytes here. */
module Base64 {

  type Byte = x: int | 0 <= x < 256

  datatype Result<+T> = Ok(value: T) | Err

  const INVALID: Byte := 0xFF
  const PAD: Byte := '=' as int

  /** `n` consecutive byte values from `first` on. */
  function Run(first: Byte, n: nat): (r: seq<Byte>)
    requires first + n <= 256
  {
    seq(n, i requires 0 <= i < n => first + i)
  }

  /** A-Z, a-z, 0-9, '+', '/'. */
  const ALPHABET: seq<Byte> := Run(65, 26) + Run(97, 26) + Run(48, 10) + [43, 47]

  // ----- Bitwise operations on bytes

  function Exp2(n: nat): (r: nat)
    ensures r >= 1
  {
    if n == 0 then 1 else 2 * Exp2(n - 1)
  }

  /** Bitwise or. */
  function Or(a: nat, b: nat): nat {
    if a == 0 && b == 0 then 0
    else 2 * Or(a / 2, b / 2) + (if a % 2 == 1 || b % 2 == 1 then 1 else 0)
  }

  lemma {:induction false} OrBound(a: nat, b: nat, n: nat)
    requires a < Exp2(n) && b < Exp2(n)
    ensures Or(a, b) < Exp2(n)
  {
    if a != 0 || b != 0 {
      OrBound(a / 2, b / 2, n - 1);
    }
  }

  function ByteOr(a: Byte, b: Byte): Byte {
    Powers();
    OrBound(a, b, 8);
    Or(a, b)
  }

  /** `a << k` in a byte, for `p == 2^k`. */
  function Shl(a: Byte, p: nat): Byte {
    a * p % 256
  }

  /** `a >> k`, for `p == 2^k`. */
  function Shr(a: Byte, p: nat): Byte
    requires p > 0
  {
    a / p
  }

  lemma {:induction false} OrZero(a: nat)
    ensures Or(a, 0) == a
  {
    if a > 0 {
      OrZero(a / 2);
    }
  }

  /** Or of a multiple of `2^k` with a number below `2^k` is their sum. */
  lemma {:induction false} OrDisjoint(m: nat, b: nat, k: nat)
    requires b < Exp2(k)
    ensures Or(m * Exp2(k), b) == m * Exp2(k) + b
  {
    var a := m * Exp2(k);
    if k == 0 {
      OrZero(a);
    } else {
      assert a == 2 * (m * Exp2(k - 1));
      OrDisjoint(m, b / 2, k - 1);
    }
  }

  // ----- The decoding table

  /** The 6-bit value of a letter of the standard alphabet, `INVALID` for other bytes. */
  function Sextet(c: Byte): Byte {
    if 65 <= c <= 90 then c - 65
    else if 97 <= c <= 122 then c - 71
    else if 48 <= c <= 57 then c + 4
    else if c == 43 then 62
    else if c == 47 then 63
    else INVALID
  }

  /** The table entry of a byte is its position in the alphabet. */
  lemma AlphabetSextets(i: nat, c: Byte)
    requires i < 64
    ensures |ALPHABET| == 64 && (Sextet(c) == i <==> c == ALPHABET[i])
  {
  }

  method BuildDecodeMap() returns (decodeMap: array<Byte>)
    ensures fresh(decodeMap) && decodeMap.Length == 256
    ensures forall c: Byte :: decodeMap[c] == Sextet(c)
  {
    decodeMap := new Byte[256];
    for i := 0 to 256
      invariant forall c: Byte :: c < i ==> decodeMap[c] == INVALID
    {
      decodeMap[i] := INVALID;
    }
    AlphabetSextets(0, 0);
    for i := 0 to 64
      invariant forall c: Byte :: decodeMap[c] == if Sextet(c) < i then Sextet(c) else INVALID
    {
      forall c: Byte
        ensures Sextet(c) == i <==> c == ALPHABET[i]
      {
        AlphabetSextets(i, c);
      }
      decodeMap[ALPHABET[i]] := i;
    }
  }

  // ----- Decoding

  /** The three bytes packed into four 6-bit values. */
  function Join0(s0: Byte, s1: Byte): Byte { ByteOr(Shl(s0, 4), Shr(s1, 16)) }

  function Join1(s1: Byte, s2: Byte): Byte { ByteOr(Shl(s1, 16), Shr(s2, 4)) }

  function Join2(s2: Byte, s3: Byte): Byte { ByteOr(Shl(s2, 64), s3) }

  /** The bytes of one group of four input bytes, if its letters are valid. */
  function DecodeGroup(c0: Byte, c1: Byte, c2: Byte, c3: Byte): (r: Result<seq<Byte>>)
    ensures r.Ok? ==> |r.value| <= 3
  {
    var b0, b1, b2, b3 := Sextet(c0), Sextet(c1), Sextet(c2), Sextet(c3);
    if b0 == INVALID || b1 == INVALID then Err
    else if c2 != PAD && b2 == INVALID then Err
    else if c3 != PAD && b3 == INVALID then Err
    else Ok([Join0(b0, b1)]
            + (if c2 != PAD then [Join1(b1, b2)] else [])
            + (if c3 != PAD then [Join2(b2, b3)] else []))
  }

  /** The first error, or the bytes of both. */
  function Then(first: Result<seq<Byte>>, rest: Result<seq<Byte>>): Result<seq<Byte>> {
    match first
    case Err => Err
    case Ok(bytes) =>
      match rest
      case Err => Err
      case Ok(more) => Ok(bytes + more)
  }

  /** Groups up to the end, a leading `=`, or a tail of fewer than four bytes. */
  function DecodeGroups(src: seq<Byte>): Result<seq<Byte>> {
    if |src| < 4 || src[0] == PAD then Ok([])
    else Then(DecodeGroup(src[0], src[1], src[2], src[3]), DecodeGroups(src[4..]))
  }

  /** `done` is what the groups before position `si` of `src` decode to. */
  ghost predicate Progress(src: seq<Byte>, si: nat, done: seq<Byte>)
    requires si <= |src|
  {
    match DecodeGroups(src[si..])
    case Err => DecodeGroups(src) == Err
    case Ok(rest) => DecodeGroups(src) == Ok(done + rest)
  }

  lemma ProgressStep(src: seq<Byte>, si: nat, done: seq<Byte>)
    requires si + 4 <= |src| && src[si] != PAD && Progress(src, si, done)
    ensures
      match DecodeGroup(src[si], src[si + 1], src[si + 2], src[si + 3])
      case Err => DecodeGroups(src) == Err
      case Ok(bytes) => Progress(src, si + 4, done + bytes)
  {
    var tail := src[si..];
    assert tail[0] == src[si] && tail[1] == src[si + 1] && tail[2] == src[si + 2] && tail[3] == src[si + 3];
    assert tail[4..] == src[si + 4..];
    var g, rest := DecodeGroup(tail[0], tail[1], tail[2], tail[3]), DecodeGroups(tail[4..]);
    if g.Ok? && rest.Ok? {
      assert done + (g.value + rest.value) == done + g.value + rest.value;
    }
  }

  lemma ProgressDone(src: seq<Byte>, si: nat, done: seq<Byte>)
    requires si <= |src| && Progress(src, si, done)
    requires |src| < si + 4 || src[si] == PAD
    ensures DecodeGroups(src) == Ok(done)
  {
    assert DecodeGroups(src[si..]) == Ok([]) && done + [] == done;
  }

  /** One pass of the decoding loop: writes the group at `si` from position `di` on. */
  method WriteGroup(dst: array<Byte>, di: nat, decodeMap: array<Byte>, src: seq<Byte>, si: nat)
    returns (end: Result<nat>)
    requires di + 3 <= dst.Length && si + 4 <= |src|
    requires decodeMap != dst && decodeMap.Length == 256 && forall c: Byte :: decodeMap[c] == Sextet(c)
    modifies dst
    ensures
      match DecodeGroup(src[si], src[si + 1], src[si + 2], src[si + 3])
      case Err => end == Err
      case Ok(bytes) => end == Ok(di + |bytes|) && dst[..di + |bytes|] == old(dst[..di]) + bytes
  {
    var b0, b1, b2, b3 := decodeMap[src[si]], decodeMap[src[si + 1]], decodeMap[src[si + 2]], decodeMap[src[si + 3]];
    var di := di;
    ghost var out := dst[..di];
    if b0 == INVALID || b1 == INVALID {
      return Err;
    }
    dst[di] := Join0(b0, b1);
    di, out := di + 1, out + [Join0(b0, b1)];
    if src[si + 2] != PAD {
      if b2 == INVALID {
        return Err;
      }
      dst[di] := Join1(b1, b2);
      di, out := di + 1, out + [Join1(b1, b2)];
    }
    assert dst[..di] == out;
    if src[si + 3] != PAD {
      if b3 == INVALID {
        return Err;
      }
      dst[di] := Join2(b2, b3);
      di, out := di + 1, out + [Join2(b2, b3)];
    }
    assert dst[..di] == out;
    return Ok(di);
  }

  /** What the written group means for the progress. */
  lemma ProgressWritten(src: seq<Byte>, si: nat, done: seq<Byte>, bytes: seq<Byte>, written: seq<Byte>)
    requires si + 4 <= |src| && src[si] != PAD && Progress(src, si, done)
    requires DecodeGroup(src[si], src[si + 1], src[si + 2], src[si + 3]) == Ok(bytes) && written == done + bytes
    ensures Progress(src, si + 4, written)
  {
    ProgressStep(src, si, done);
  }

  lemma ProgressFails(src: seq<Byte>, si: nat, done: seq<Byte>)
    requires si + 4 <= |src| && src[si] != PAD && Progress(src, si, done)
    requires DecodeGroup(src[si], src[si + 1], src[si + 2], src[si + 3]) == Err
    ensures DecodeGroups(src) == Err
  {
    ProgressStep(src, si, done);
  }

  /** The loop body, in terms of what is done so far. */
  method DecodeStep(dst: array<Byte>, di: nat, decodeMap: array<Byte>, src: seq<Byte>, si: nat)
    returns (end: Result<nat>)
    requires di + 3 <= dst.Length && si + 4 <= |src| && src[si] != PAD
    requires decodeMap != dst && decodeMap.Length == 256 && forall c: Byte :: decodeMap[c] == Sextet(c)
    requires Progress(src, si, dst[..di])
    modifies dst
    ensures
      match end
      case Err => DecodeGroups(src) == Err
      case Ok(to) => di <= to <= di + 3 && Progress(src, si + 4, dst[..to])
  {
    ghost var done := dst[..di];
    end := WriteGroup(dst, di, decodeMap, src, si);
    if end == Err {
      ProgressFails(src, si, done);
    } else {
      ProgressWritten(src, si, done, dst[di..end.value], dst[..end.value]);
    }
  }

  /** Go's index arithmetic: every write lands inside a buffer of `len(src) * 3 / 4`
      bytes, whatever the input. */
  method Base64Decode(dst: array<Byte>, src: seq<Byte>) returns (r: Result<int>)
    requires dst.Length >= |src| * 3 / 4
    modifies dst
    ensures
      match DecodeGroups(src)
      case Err => r == Err
      case Ok(bytes) => r == Ok(|bytes|) && |bytes| <= dst.Length && dst[..|bytes|] == bytes
  {
    var decodeMap := BuildDecodeMap();
    var di, si := 0, 0;
    assert Progress(src, 0, []) by {
      assert src[0..] == src;
      assert DecodeGroups(src).Ok? ==> [] + DecodeGroups(src).value == DecodeGroups(src).value;
    }
    while si < |src| && src[si] != PAD
      modifies dst
      invariant 0 <= si <= |src| && si % 4 == 0 && 0 <= di <= si / 4 * 3
      invariant Progress(src, si, dst[..di])
      decreases |src| - si
    {
      if si + 4 > |src| {
        break;
      }
      var end := DecodeStep(dst, di, decodeMap, src, si);
      if end == Err {
        return Err;
      }
      di := end.value;
      si := si + 4;
    }
    ProgressDone(src, si, dst[..di]);
    return Ok(di);
  }

  function Padded(s: seq<Byte>): seq<Byte> {
    if |s| % 4 == 2 then s + [PAD, PAD]
    else if |s| % 4 == 3 then s + [PAD]
    else s
  }

  /** '-' and '_' of the URL-safe alphabet become '+' and '/'. */
  function Standard(c: Byte): Byte {
    if c == 45 then 43 else if c == 95 then 47 else c
  }

  function StandardAll(s: seq<Byte>): seq<Byte> {
    seq(|s|, i requires 0 <= i < |s| => Standard(s[i]))
  }

  /** What `decodeBase64` returns. */
  function Decoded(s: seq<Byte>): Result<seq<Byte>> {
    DecodeGroups(StandardAll(Padded(s)))
  }

  method DecodeBase64(s: seq<Byte>) returns (r: Result<seq<Byte>>)
    ensures r == Decoded(s)
  {
    var src := StandardAll(Padded(s));
    var result := new Byte[|src| * 3 / 4];
    var n := Base64Decode(result, src);
    match n
    case Err => return Err;
    case Ok(k) => return Ok(result[..k]);
  }

  // ----- The encoding, and the round trip

  /** The letter of a 6-bit value in the URL-safe alphabet. */
  function UrlLetter(v: nat): Byte
    requires v < 64
  {
    if v < 26 then 65 + v
    else if v < 52 then 71 + v
    else if v < 62 then v - 4
    else if v == 62 then 45
    else 95
  }

  /** The four 6-bit values cut from three bytes. */
  function Cut0(x: Byte): (v: Byte) ensures v < 64 { x / 4 }

  function Cut1(x: Byte, y: Byte): (v: Byte) ensures v < 64 { x % 4 * 16 + y / 16 }

  function Cut2(y: Byte, z: Byte): (v: Byte) ensures v < 64 { y % 16 * 4 + z / 64 }

  function Cut3(z: Byte): (v: Byte) ensures v < 64 { z % 64 }

  function Letters1(x: Byte): seq<Byte> { [UrlLetter(Cut0(x)), UrlLetter(Cut1(x, 0))] }

  function Letters2(x: Byte, y: Byte): seq<Byte> { [UrlLetter(Cut0(x)), UrlLetter(Cut1(x, y)), UrlLetter(Cut2(y, 0))] }

  function Letters3(x: Byte, y: Byte, z: Byte): seq<Byte> {
    [UrlLetter(Cut0(x)), UrlLetter(Cut1(x, y)), UrlLetter(Cut2(y, z)), UrlLetter(Cut3(z))]
  }

  /** Base64url without padding (section 5 of RFC 4648). */
  function Encoded(b: seq<Byte>): seq<Byte> {
    if b == [] then []
    else if |b| == 1 then Letters1(b[0])
    else if |b| == 2 then Letters2(b[0], b[1])
    else Letters3(b[0], b[1], b[2]) + Encoded(b[3..])
  }

  lemma LetterValue(v: Byte)
    requires v < 64
    ensures Sextet(Standard(UrlLetter(v))) == v && Standard(UrlLetter(v)) != PAD
  {
  }

  lemma Powers()
    ensures Exp2(2) == 4 && Exp2(4) == 16 && Exp2(6) == 64 && Exp2(8) == 256
  {
    assert Exp2(2) == 4;
    assert Exp2(4) == 16;
    assert Exp2(6) == 64;
  }

  /** Joining the upper part of a byte with its lower bits gives it back. */
  lemma Joined(x: Byte)
    ensures ByteOr(x / 4 * 4, x % 4) == x
    ensures ByteOr(x / 16 * 16, x % 16) == x
    ensures ByteOr(x / 64 * 64, x % 64) == x
  {
    Powers();
    OrDisjoint(x / 4, x % 4, 2);
    OrDisjoint(x / 16, x % 16, 4);
    OrDisjoint(x / 64, x % 64, 6);
  }

  lemma Pack0(x: Byte, y: Byte)
    ensures Join0(Cut0(x), Cut1(x, y)) == x
  {
    assert Shl(Cut0(x), 4) == x / 4 * 4 && Shr(Cut1(x, y), 16) == x % 4;
    Joined(x);
  }

  lemma Pack1(x: Byte, y: Byte, z: Byte)
    ensures Join1(Cut1(x, y), Cut2(y, z)) == y
  {
    assert Shl(Cut1(x, y), 16) == y / 16 * 16 && Shr(Cut2(y, z), 4) == y % 16;
    Joined(y);
  }

  lemma Pack2(y: Byte, z: Byte)
    ensures Join2(Cut2(y, z), Cut3(z)) == z
  {
    assert Shl(Cut2(y, z), 64) == z / 64 * 64;
    Joined(z);
  }

  /** Joining the cut pieces gives the bytes back. */
  lemma Packs(x: Byte, y: Byte, z: Byte)
    ensures Join0(Cut0(x), Cut1(x, y)) == x
    ensures Join1(Cut1(x, y), Cut2(y, z)) == y
    ensures Join2(Cut2(y, z), Cut3(z)) == z
  {
    Pack0(x, y);
    Pack1(x, y, z);
    Pack2(y, z);
  }

  /** A group of letters decodes by joining their values. */
  lemma LettersDecode(s0: Byte, s1: Byte, s2: Byte, s3: Byte)
    requires s0 < 64 && s1 < 64 && s2 < 64 && s3 < 64
    ensures
      var l0, l1, l2, l3 := Standard(UrlLetter(s0)), Standard(UrlLetter(s1)), Standard(UrlLetter(s2)),
        Standard(UrlLetter(s3));
      && l0 != PAD
      && DecodeGroup(l0, l1, PAD, PAD) == Ok([Join0(s0, s1)])
      && DecodeGroup(l0, l1, l2, PAD) == Ok([Join0(s0, s1), Join1(s1, s2)])
      && DecodeGroup(l0, l1, l2, l3) == Ok([Join0(s0, s1), Join1(s1, s2), Join2(s2, s3)])
  {
    LetterValue(s0);
    LetterValue(s1);
    LetterValue(s2);
    LetterValue(s3);
    var j0, j1, j2 := Join0(s0, s1), Join1(s1, s2), Join2(s2, s3);
    assert [j0] + [] + [] == [j0] && [j0] + [j1] + [] == [j0, j1] && [j0] + [j1] + [j2] == [j0, j1, j2];
  }

  lemma PaddedLetters(l0: Byte, l1: Byte, l2: Byte, l3: Byte)
    ensures StandardAll(Padded([l0, l1])) == [Standard(l0), Standard(l1), PAD, PAD]
    ensures StandardAll(Padded([l0, l1, l2])) == [Standard(l0), Standard(l1), Standard(l2), PAD]
    ensures StandardAll(Padded([l0, l1, l2, l3])) == [Standard(l0), Standard(l1), Standard(l2), Standard(l3)]
  {
    assert [l0, l1] + [PAD, PAD] == [l0, l1, PAD, PAD];
    assert [l0, l1, l2] + [PAD] == [l0, l1, l2, PAD];
  }

  /** A group, padded and in the standard alphabet, decodes to its bytes. */
  ghost predicate GroupDecodes(g: seq<Byte>, b: seq<Byte>) {
    |g| == 4 && g[0] != PAD && DecodeGroup(g[0], g[1], g[2], g[3]) == Ok(b)
  }

  lemma LettersGroup1(x: Byte)
    ensures GroupDecodes(StandardAll(Padded(Letters1(x))), [x])
  {
    Packs(x, 0, 0);
    PaddedLetters(UrlLetter(Cut0(x)), UrlLetter(Cut1(x, 0)), 0, 0);
    LettersDecode(Cut0(x), Cut1(x, 0), 0, 0);
  }

  lemma LettersGroup2(x: Byte, y: Byte)
    ensures GroupDecodes(StandardAll(Padded(Letters2(x, y))), [x, y])
  {
    Packs(x, y, 0);
    PaddedLetters(UrlLetter(Cut0(x)), UrlLetter(Cut1(x, y)), UrlLetter(Cut2(y, 0)), 0);
    LettersDecode(Cut0(x), Cut1(x, y), Cut2(y, 0), 0);
  }

  lemma LettersGroup3(x: Byte, y: Byte, z: Byte)
    ensures GroupDecodes(StandardAll(Padded(Letters3(x, y, z))), [x, y, z])
  {
    Packs(x, y, z);
    PaddedLetters(UrlLetter(Cut0(x)), UrlLetter(Cut1(x, y)), UrlLetter(Cut2(y, z)), UrlLetter(Cut3(z)));
    LettersDecode(Cut0(x), Cut1(x, y), Cut2(y, z), Cut3(z));
  }

  lemma PaddedConcat(g: seq<Byte>, s: seq<Byte>)
    requires |g| == 4
    ensures StandardAll(Padded(g + s)) == StandardAll(Padded(g)) + StandardAll(Padded(s))
  {
  }

  lemma DecodeConcat(g: seq<Byte>, s: seq<Byte>, bytes: seq<Byte>, more: seq<Byte>)
    requires GroupDecodes(g, bytes)
    requires DecodeGroups(s) == Ok(more)
    ensures DecodeGroups(g + s) == Ok(bytes + more)
  {
    assert (g + s)[4..] == s;
  }

  lemma GroupAlone(g: seq<Byte>, b: seq<Byte>)
    requires GroupDecodes(StandardAll(Padded(g)), b)
    ensures Decoded(g) == Ok(b)
  {
    DecodeConcat(StandardAll(Padded(g)), [], b, []);
    assert StandardAll(Padded(g)) + [] == StandardAll(Padded(g)) && b + [] == b;
  }

  lemma GroupThenMore(g: seq<Byte>, letters: seq<Byte>, bytes: seq<Byte>, more: seq<Byte>)
    requires |g| == 4 && GroupDecodes(StandardAll(Padded(g)), bytes) && Decoded(letters) == Ok(more)
    ensures Decoded(g + letters) == Ok(bytes + more)
  {
    PaddedConcat(g, letters);
    DecodeConcat(StandardAll(Padded(g)), StandardAll(Padded(letters)), bytes, more);
  }

  lemma GroupThenRest(x: Byte, y: Byte, z: Byte, letters: seq<Byte>, rest: seq<Byte>)
    requires Decoded(letters) == Ok(rest)
    ensures Decoded(Letters3(x, y, z) + letters) == Ok([x, y, z] + rest)
  {
    LettersGroup3(x, y, z);
    GroupThenMore(Letters3(x, y, z), letters, [x, y, z], rest);
  }

  lemma OneByte(x: Byte)
    ensures Decoded(Letters1(x)) == Ok([x])
  {
    LettersGroup1(x);
    GroupAlone(Letters1(x), [x]);
  }

  lemma TwoBytes(x: Byte, y: Byte)
    ensures Decoded(Letters2(x, y)) == Ok([x, y])
  {
    LettersGroup2(x, y);
    GroupAlone(Letters2(x, y), [x, y]);
  }

  lemma EncodedShort(b: seq<Byte>)
    ensures |b| == 1 ==> b == [b[0]] && Encoded(b) == Letters1(b[0])
    ensures |b| == 2 ==> b == [b[0], b[1]] && Encoded(b) == Letters2(b[0], b[1])
  {
  }

  lemma EncodedSplits(x: Byte, y: Byte, z: Byte, rest: seq<Byte>)
    ensures Encoded([x, y, z] + rest) == Letters3(x, y, z) + Encoded(rest)
  {
    assert ([x, y, z] + rest)[3..] == rest;
  }

  /** Decoding undoes the unpadded base64url encoding of every byte sequence. */
  lemma {:induction false} RoundTrip(b: seq<Byte>)
    ensures Decoded(Encoded(b)) == Ok(b)
  {
    if |b| >= 3 {
      var x, y, z, rest := b[0], b[1], b[2], b[3..];
      assert b == [x, y, z] + rest;
      RoundTrip(rest);
      EncodedSplits(x, y, z, rest);
      GroupThenRest(x, y, z, Encoded(rest), rest);
    } else if |b| == 2 {
      EncodedShort(b);
      TwoBytes(b[0], b[1]);
    } else if |b| == 1 {
      EncodedShort(b);
      OneByte(b[0]);
    }
  }

  /** A last group of fewer than four characters is ignored. */
  lemma {:induction false} TailIgnored(src: seq<Byte>, cut: seq<Byte>)
    requires cut == src[..|src| - |src| % 4]
    ensures DecodeGroups(src) == DecodeGroups(cut)
    decreases |src|
  {
    if |src| >= 4 {
      assert cut[4..] == src[4..][..|src[4..]| - |src[4..]| % 4];
      TailIgnored(src[4..], cut[4..]);
      assert cut[0] == src[0] && cut[1] == src[1] && cut[2] == src[2] && cut[3] == src[3];
    }
  }

  lemma StandardPrefix(s: seq<Byte>, n: nat)
    requires n <= |s|
    ensures StandardAll(s)[..n] == StandardAll(s[..n])
  {
  }

  /** A length of 1 modulo 4, which no encoding has, is not reported as an error: the
      last character is ignored. */
  lemma StrayCharacterIgnored(s: seq<Byte>)
    requires |s| % 4 == 1
    ensures Decoded(s) == Decoded(s[..|s| - 1])
  {
    var n := |s| - 1;
    assert Padded(s) == s && Padded(s[..n]) == s[..n];
    StandardPrefix(s, n);
    TailIgnored(StandardAll(s), StandardAll(s[..n]));
  }

  // ----- Other inputs

  /** A character of the standard alphabet. */
  predicate IsLetter(c: Byte) {
    65 <= c <= 90 || 97 <= c <= 122 || 48 <= c <= 57 || c == 43 || c == 47
  }

  lemma SextetOfLetter(c: Byte)
    ensures Sextet(c) == INVALID <==> !IsLetter(c)
  {
  }

  /** A group with a character that is no letter; only the last two may be `=`. */
  predicate BadGroup(src: seq<Byte>, i: nat)
    requires i + 4 <= |src|
  {
    || !IsLetter(src[i]) || !IsLetter(src[i + 1])
    || (src[i + 2] != 61 && !IsLetter(src[i + 2])) || (src[i + 3] != 61 && !IsLetter(src[i + 3]))
  }

  /** The `g`-th group is bad, and no group up to it starts with `=`. */
  ghost predicate FailsAt(src: seq<Byte>, g: nat) {
    4 * g + 4 <= |src| && BadGroup(src, 4 * g) && forall h: nat :: h <= g ==> src[4 * h] != 61
  }

  lemma GroupFailsIff(src: seq<Byte>)
    requires |src| >= 4
    ensures DecodeGroup(src[0], src[1], src[2], src[3]) == Err <==> BadGroup(src, 0)
  {
    SextetOfLetter(src[0]);
    SextetOfLetter(src[1]);
    SextetOfLetter(src[2]);
    SextetOfLetter(src[3]);
  }

  lemma FailsLater(src: seq<Byte>, g: nat)
    requires |src| >= 4 && src[0] != 61
    ensures FailsAt(src[4..], g) <==> FailsAt(src, g + 1)
  {
    var rest := src[4..];
    if FailsAt(rest, g) {
      forall h: nat | h <= g + 1
        ensures src[4 * h] != 61
      {
        if h > 0 {
          assert rest[4 * (h - 1)] == src[4 * h];
        }
      }
    }
    if FailsAt(src, g + 1) {
      forall h: nat | h <= g
        ensures rest[4 * h] != 61
      {
        assert rest[4 * h] == src[4 * (h + 1)];
      }
    }
  }

  ghost predicate Fails(src: seq<Byte>) {
    exists g: nat :: FailsAt(src, g)
  }

  lemma FailsStep(src: seq<Byte>)
    requires |src| >= 4 && src[0] != 61
    ensures Fails(src) <==> BadGroup(src, 0) || Fails(src[4..])
  {
    if BadGroup(src, 0) {
      assert FailsAt(src, 0);
    }
    if g: nat :| FailsAt(src, g) {
      if g > 0 {
        FailsLater(src, g - 1);
      }
    }
    if g: nat :| FailsAt(src[4..], g) {
      FailsLater(src, g);
    }
  }

  lemma FailsNot(src: seq<Byte>)
    requires |src| < 4 || src[0] == 61
    ensures !Fails(src)
  {
    forall g: nat
      ensures !FailsAt(src, g)
    {
      assert |src| >= 4 ==> src[4 * 0] == 61;
    }
  }

  lemma ThenFails(first: Result<seq<Byte>>, rest: Result<seq<Byte>>)
    ensures Then(first, rest) == Err <==> first == Err || rest == Err
  {
  }

  /** Decoding fails exactly if a whole group before the end, or before a group that starts with `=`, is bad. */
  lemma {:induction false} DecodeFailsIff(src: seq<Byte>)
    ensures DecodeGroups(src) == Err <==> Fails(src)
  {
    if |src| < 4 || src[0] == 61 {
      FailsNot(src);
    } else {
      var first, rest := DecodeGroup(src[0], src[1], src[2], src[3]), DecodeGroups(src[4..]);
      DecodeFailsIff(src[4..]);
      GroupFailsIff(src);
      FailsStep(src);
      ThenFails(first, rest);
      assert DecodeGroups(src) == Then(first, rest);
    }
  }

  lemma StandardTwice(s: seq<Byte>)
    ensures StandardAll(StandardAll(s)) == StandardAll(s)
  {
  }

  /** Text that is already padded, in the standard alphabet or in the one of URLs, decodes as well. */
  lemma PaddedRoundTrip(b: seq<Byte>)
    ensures Decoded(Padded(Encoded(b))) == Ok(b)
    ensures Decoded(StandardAll(Padded(Encoded(b)))) == Ok(b)
  {
    RoundTrip(b);
    EncodedLength(b);
    StandardTwice(Padded(Encoded(b)));
  }

  lemma {:induction false} EncodedSize(b: seq<Byte>)
    ensures |Encoded(b)| == 4 * (|b| / 3) + if |b| % 3 == 0 then 0 else |b| % 3 + 1
  {
    if |b| >= 3 {
      EncodedSize(b[3..]);
      assert |Encoded(b)| == 4 + |Encoded(b[3..])|;
    }
  }

  lemma FourMod(q: nat, t: nat)
    requires t < 4
    ensures (4 * q + t) % 4 == t
  {
  }

  lemma PaddedLength(s: seq<Byte>, t: nat)
    requires |s| % 4 == t && t != 1
    ensures |Padded(s)| % 4 == 0
  {
  }

  lemma EncodedLength(b: seq<Byte>)
    ensures |Padded(Encoded(b))| % 4 == 0
  {
    var t := if |b| % 3 == 0 then 0 else |b| % 3 + 1;
    EncodedSize(b);
    FourMod(|b| / 3, t);
    PaddedLength(Encoded(b), t);
  }
}
