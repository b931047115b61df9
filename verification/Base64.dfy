/** Go's `base64.StdEncoding`: the standard alphabet with padding (section 4 of
    RFC 4648), encoding into an allocated buffer, and the lenient decoder, which
    skips line breaks and ignores the unused low bits before the padding. */
module Base64 {
  import opened Text

  type byte = bv8
  type sextet = bv6

  const PAD: byte := 61
  const CR: byte := 13
  const LF: byte := 10

  /** Table 1 of RFC 4648. */
  function Digit(i: sextet): byte {
    if i < 26 then 65 + i as bv8
    else if i < 52 then 71 + i as bv8
    else if i < 62 then i as bv8 - 4
    else if i == 62 then 43
    else 47
  }

  function Undigit(c: byte): Option<sextet> {
    if 65 <= c <= 90 then Some((c - 65) as bv6)
    else if 97 <= c <= 122 then Some((c - 71) as bv6)
    else if 48 <= c <= 57 then Some((c + 4) as bv6)
    else if c == 43 then Some(62)
    else if c == 47 then Some(63)
    else None
  }

  lemma UndigitDigit(i: sextet)
    ensures Undigit(Digit(i)) == Some(i)
    ensures Digit(i) != PAD && Digit(i) != CR && Digit(i) != LF
  {
  }

  lemma DigitUndigit(c: byte)
    requires Undigit(c).Some?
    ensures Digit(Undigit(c).value) == c
    ensures c != PAD && c != CR && c != LF
  {
  }

  // The four digits of three bytes, and the three bytes of four digits.

  function D0(a: byte): sextet { (a >> 2) as bv6 }
  function D1(a: byte, b: byte): sextet { (((a & 3) << 4) | (b >> 4)) as bv6 }
  function D2(b: byte, c: byte): sextet { (((b & 15) << 2) | (c >> 6)) as bv6 }
  function D3(c: byte): sextet { (c & 63) as bv6 }

  function B0(p: sextet, q: sextet): byte { (p as bv8 << 2) | (q as bv8 >> 4) }
  function B1(q: sextet, r: sextet): byte { (q as bv8 << 4) | (r as bv8 >> 2) }
  function B2(r: sextet, s: sextet): byte { (r as bv8 << 6) | s as bv8 }

  lemma BytesOfDigits(a: byte, b: byte, c: byte)
    ensures B0(D0(a), D1(a, b)) == a
    ensures B1(D1(a, b), D2(b, c)) == b
    ensures B2(D2(b, c), D3(c)) == c
  {
  }

  lemma DigitsOfBytes(p: sextet, q: sextet, r: sextet, s: sextet)
    ensures D0(B0(p, q)) == p
    ensures D1(B0(p, q), B1(q, r)) == q
    ensures D2(B1(q, r), B2(r, s)) == r
    ensures D3(B2(r, s)) == s
    ensures D1(B0(p, q), 0) == q & 48
    ensures D2(B1(q, r), 0) == r & 60
  {
  }

  // ---------------------------------------------------------------- encoding

  /** `EncodedLen`. */
  function EncodedLen(n: nat): nat { (n + 2) / 3 * 4 }

  function Encode(src: seq<byte>): seq<byte> {
    if |src| == 0 then []
    else if |src| == 1 then [Digit(D0(src[0])), Digit(D1(src[0], 0)), PAD, PAD]
    else if |src| == 2 then [Digit(D0(src[0])), Digit(D1(src[0], src[1])), Digit(D2(src[1], 0)), PAD]
    else [Digit(D0(src[0])), Digit(D1(src[0], src[1])), Digit(D2(src[1], src[2])), Digit(D3(src[2]))]
         + Encode(src[3..])
  }

  lemma {:induction false} EncodeLength(src: seq<byte>)
    ensures |Encode(src)| == EncodedLen(|src|)
  {
    if |src| > 3 {
      EncodeLength(src[3..]);
      assert EncodedLen(|src|) == 4 + EncodedLen(|src| - 3);
    }
  }

  /** The quantum at `di` encodes the group at `si`. */
  lemma EncodeAt(src: seq<byte>, si: nat, di: nat)
    requires si + 3 <= |src| && di <= |Encode(src)|
    requires Encode(src)[di..] == Encode(src[si..])
    ensures di + 4 <= |Encode(src)|
    ensures Encode(src)[di..di + 4] == [Digit(D0(src[si])), Digit(D1(src[si], src[si + 1])),
                                        Digit(D2(src[si + 1], src[si + 2])), Digit(D3(src[si + 2]))]
    ensures Encode(src)[di + 4..] == Encode(src[si + 3..])
  {
    var all, rest := Encode(src), src[si..];
    assert |Encode(rest)| >= 4;
    assert rest[3..] == src[si + 3..];
    assert all[di..di + 4] == all[di..][..4] && all[di + 4..] == all[di..][4..];
  }

  /** Writes one quantum and nothing else. */
  method PutQuantum(dst: array<byte>, di: nat, w: byte, x: byte, y: byte, z: byte)
    requires di + 4 <= dst.Length
    modifies dst
    ensures dst[..di] == old(dst[..di])
    ensures dst[di..di + 4] == [w, x, y, z]
    ensures dst[di + 4..] == old(dst[di + 4..])
  {
    dst[di], dst[di + 1], dst[di + 2], dst[di + 3] := w, x, y, z;
  }

  lemma Glue(all: seq<byte>, buf: seq<byte>, di: nat)
    requires di + 4 <= |all| == |buf|
    requires buf[..di] == all[..di] && buf[di..di + 4] == all[di..di + 4]
    ensures buf[..di + 4] == all[..di + 4]
  {
    assert buf[..di + 4] == buf[..di] + buf[di..di + 4];
    assert all[..di + 4] == all[..di] + all[di..di + 4];
  }

  /** The last, padded quantum. */
  lemma EncodeTail(src: seq<byte>, si: nat, di: nat)
    requires si < |src| <= si + 2 && di <= |Encode(src)|
    requires Encode(src)[di..] == Encode(src[si..])
    ensures di + 4 == |Encode(src)|
    ensures Encode(src)[di..di + 4] ==
            if si + 2 == |src| then [Digit(D0(src[si])), Digit(D1(src[si], src[si + 1])), Digit(D2(src[si + 1], 0)), PAD]
            else [Digit(D0(src[si])), Digit(D1(src[si], 0)), PAD, PAD]
  {
    assert |Encode(src[si..])| == 4;
    assert Encode(src)[di..di + 4] == Encode(src)[di..];
  }

  lemma EncodeNothing()
    ensures Encode([]) == []
  {
  }

  /** Encoding in place, three bytes at a time: the buffer is filled exactly. */
  method EncodeInto(dst: array<byte>, src: seq<byte>)
    requires dst.Length == |Encode(src)|
    modifies dst
    ensures dst[..] == Encode(src)
  {
    hide Encode, Digit, D0, D1, D2, D3;
    var di, si := 0, 0;
    assert src[0..] == src;
    while si + 3 <= |src|
      invariant si <= |src| && di <= dst.Length
      invariant dst[..di] == Encode(src)[..di]
      invariant Encode(src)[di..] == Encode(src[si..])
    {
      EncodeAt(src, si, di);
      PutQuantum(dst, di, Digit(D0(src[si])), Digit(D1(src[si], src[si + 1])),
                 Digit(D2(src[si + 1], src[si + 2])), Digit(D3(src[si + 2])));
      Glue(Encode(src), dst[..], di);
      si, di := si + 3, di + 4;
    }
    if si == |src| {
      EncodeNothing();
      assert src[si..] == [];
      assert Encode(src)[di..] == [];
      return;
    }
    EncodeTail(src, si, di);
    if si + 2 == |src| {
      PutQuantum(dst, di, Digit(D0(src[si])), Digit(D1(src[si], src[si + 1])), Digit(D2(src[si + 1], 0)), PAD);
    } else {
      PutQuantum(dst, di, Digit(D0(src[si])), Digit(D1(src[si], 0)), PAD, PAD);
    }
    Glue(Encode(src), dst[..], di);
  }

  // ---------------------------------------------------------------- decoding

  predicate IsBreak(c: byte) { c == CR || c == LF }

  function Unbroken(s: seq<byte>): seq<byte> {
    if s == [] then []
    else (if IsBreak(s[0]) then [] else [s[0]]) + Unbroken(s[1..])
  }

  /** The decoder on input without line breaks, a quantum of four at a time.
      Only the last quantum may be padded. */
  function DecodeQuanta(s: seq<byte>): Option<seq<byte>> {
    if |s| == 0 then Some([])
    else if |s| < 4 then None
    else
      var p, q := Undigit(s[0]), Undigit(s[1]);
      if p.None? || q.None? then None
      else if s[2] == PAD then
        if s[3] == PAD && |s| == 4 then Some([B0(p.value, q.value)]) else None
      else
        var r := Undigit(s[2]);
        if r.None? then None
        else if s[3] == PAD then
          if |s| == 4 then Some([B0(p.value, q.value), B1(q.value, r.value)]) else None
        else
          var t := Undigit(s[3]);
          if t.None? then None
          else match DecodeQuanta(s[4..])
            case None => None
            case Some(rest) =>
              Some([B0(p.value, q.value), B1(q.value, r.value), B2(r.value, t.value)] + rest)
  }

  /** `DecodeString`. */
  function Decode(s: seq<byte>): Option<seq<byte>> {
    DecodeQuanta(Unbroken(s))
  }

  /** One quantum: what `DecodeQuanta` makes of four full digits and a rest. */
  lemma DecodeFull(a: byte, b: byte, c: byte, rest: seq<byte>)
    requires DecodeQuanta(rest).Some?
    ensures DecodeQuanta([Digit(D0(a)), Digit(D1(a, b)), Digit(D2(b, c)), Digit(D3(c))] + rest)
         == Some([a, b, c] + DecodeQuanta(rest).value)
  {
    BytesOfDigits(a, b, c);
    UndigitDigit(D0(a)); UndigitDigit(D1(a, b)); UndigitDigit(D2(b, c)); UndigitDigit(D3(c));
    var s := [Digit(D0(a)), Digit(D1(a, b)), Digit(D2(b, c)), Digit(D3(c))] + rest;
    assert s[4..] == rest;
  }

  lemma DecodePadded(a: byte, b: byte)
    ensures DecodeQuanta([Digit(D0(a)), Digit(D1(a, b)), Digit(D2(b, 0)), PAD]) == Some([a, b])
    ensures DecodeQuanta([Digit(D0(a)), Digit(D1(a, 0)), PAD, PAD]) == Some([a])
  {
    BytesOfDigits(a, b, 0);
    BytesOfDigits(a, 0, 0);
    UndigitDigit(D0(a)); UndigitDigit(D1(a, b)); UndigitDigit(D2(b, 0)); UndigitDigit(D1(a, 0));
  }

  lemma {:induction false} DecodeQuantaEncode(data: seq<byte>)
    ensures DecodeQuanta(Encode(data)) == Some(data)
  {
    if |data| >= 3 {
      DecodeQuantaEncode(data[3..]);
      DecodeFull(data[0], data[1], data[2], Encode(data[3..]));
      assert data == [data[0], data[1], data[2]] + data[3..];
    } else if |data| == 2 {
      DecodePadded(data[0], data[1]);
      assert data == [data[0], data[1]];
    } else if |data| == 1 {
      DecodePadded(data[0], 0);
      assert data == [data[0]];
    }
  }

  lemma {:induction false} EncodeUnbroken(data: seq<byte>)
    ensures forall k :: 0 <= k < |Encode(data)| ==> !IsBreak(Encode(data)[k])
  {
    if |data| >= 3 {
      UndigitDigit(D0(data[0])); UndigitDigit(D1(data[0], data[1]));
      UndigitDigit(D2(data[1], data[2])); UndigitDigit(D3(data[2]));
      EncodeUnbroken(data[3..]);
    } else if |data| == 2 {
      UndigitDigit(D0(data[0])); UndigitDigit(D1(data[0], data[1])); UndigitDigit(D2(data[1], 0));
    } else if |data| == 1 {
      UndigitDigit(D0(data[0])); UndigitDigit(D1(data[0], 0));
    }
  }

  lemma {:induction false} UnbrokenKeeps(s: seq<byte>, n: nat)
    requires n <= |s| && forall k :: 0 <= k < n ==> !IsBreak(s[k])
    ensures Unbroken(s) == s[..n] + Unbroken(s[n..])
  {
    if n > 0 {
      UnbrokenKeeps(s[1..], n - 1);
      assert s[1..][n - 1..] == s[n..];
      assert s[..n] == [s[0]] + s[1..][..n - 1];
    } else {
      assert s[0..] == s;
    }
  }

  /** Decoding undoes encoding, for every byte string. */
  lemma DecodeEncode(data: seq<byte>)
    ensures Decode(Encode(data)) == Some(data)
  {
    DecodeQuantaEncode(data);
    EncodeUnbroken(data);
    UnbrokenKeeps(Encode(data), |Encode(data)|);
    assert Encode(data)[|Encode(data)|..] == [];
    assert Unbroken(Encode(data)) == Encode(data);
  }

  /** The text with the bits the decoder ignores cleared: the low bits of the
      digit before the padding of the last quantum. */
  function Canonical(s: seq<byte>): seq<byte> {
    if |s| < 4 then s
    else if |s| > 4 then s[..4] + Canonical(s[4..])
    else if s[3] != PAD then s
    else if s[2] != PAD then
      match Undigit(s[2]) { case None => s case Some(r) => [s[0], s[1], Digit(r & 60), PAD] }
    else
      match Undigit(s[1]) { case None => s case Some(q) => [s[0], Digit(q & 48), PAD, PAD] }
  }

  /** Exactly which texts decode to `data`: those whose canonical form, line
      breaks removed, is the encoding of `data`. */
  lemma DecodeExactly(s: seq<byte>, data: seq<byte>)
    ensures Decode(s) == Some(data) <==> Canonical(Unbroken(s)) == Encode(data)
  {
    var t := Unbroken(s);
    if DecodeQuanta(t) == Some(data) {
      CanonicalIsEncode(t);
    }
    if Canonical(t) == Encode(data) {
      DecodeQuantaEncode(data);
      CanonicalDecodesAlike(t);
    }
  }

  lemma CanonicalPadded(s: seq<byte>)
    requires |s| == 4 && s[3] == PAD && DecodeQuanta(s).Some?
    ensures Canonical(s) == Encode(DecodeQuanta(s).value)
  {
    DigitUndigit(s[0]); DigitUndigit(s[1]);
    var p, q := Undigit(s[0]).value, Undigit(s[1]).value;
    if s[2] == PAD {
      DigitsOfBytes(p, q, 0, 0);
    } else {
      DigitUndigit(s[2]);
      DigitsOfBytes(p, q, Undigit(s[2]).value, 0);
    }
  }

  lemma DigitsAgain(w: byte, x: byte, y: byte, z: byte)
    requires Undigit(w).Some? && Undigit(x).Some? && Undigit(y).Some? && Undigit(z).Some?
    ensures var p, q, r, t := Undigit(w).value, Undigit(x).value, Undigit(y).value, Undigit(z).value;
            && Digit(D0(B0(p, q))) == w && Digit(D1(B0(p, q), B1(q, r))) == x
            && Digit(D2(B1(q, r), B2(r, t))) == y && Digit(D3(B2(r, t))) == z
  {
    DigitUndigit(w); DigitUndigit(x); DigitUndigit(y); DigitUndigit(z);
    hide Digit, Undigit;
    DigitsOfBytes(Undigit(w).value, Undigit(x).value, Undigit(y).value, Undigit(z).value);
    hide B0, B1, B2, D0, D1, D2, D3;
  }

  lemma EncodeGroup(a: byte, b: byte, c: byte, rest: seq<byte>)
    ensures Encode([a, b, c] + rest) == [Digit(D0(a)), Digit(D1(a, b)), Digit(D2(b, c)), Digit(D3(c))] + Encode(rest)
  {
    hide D0, D1, D2, D3, Digit;
    assert ([a, b, c] + rest)[3..] == rest;
  }

  lemma DecodedGroup(s: seq<byte>)
    requires |s| >= 4 && s[2] != PAD && s[3] != PAD && DecodeQuanta(s).Some?
    ensures DecodeQuanta(s[4..]).Some?
    ensures Undigit(s[0]).Some? && Undigit(s[1]).Some? && Undigit(s[2]).Some? && Undigit(s[3]).Some?
    ensures var p, q, r, t := Undigit(s[0]).value, Undigit(s[1]).value, Undigit(s[2]).value, Undigit(s[3]).value;
            DecodeQuanta(s).value == [B0(p, q), B1(q, r), B2(r, t)] + DecodeQuanta(s[4..]).value
  {
    hide B0, B1, B2, Undigit;
  }

  /** A full quantum: its bytes encode back to its digits. */
  lemma FullQuantum(s: seq<byte>)
    requires |s| >= 4 && s[2] != PAD && s[3] != PAD && DecodeQuanta(s).Some?
    ensures DecodeQuanta(s[4..]).Some?
    ensures Encode(DecodeQuanta(s).value) == s[..4] + Encode(DecodeQuanta(s[4..]).value)
  {
    hide B0, B1, B2, D0, D1, D2, D3, Digit, Undigit, Encode, DecodeQuanta;
    DecodedGroup(s);
    var p, q, r, t := Undigit(s[0]).value, Undigit(s[1]).value, Undigit(s[2]).value, Undigit(s[3]).value;
    DigitsAgain(s[0], s[1], s[2], s[3]);
    EncodeGroup(B0(p, q), B1(q, r), B2(r, t), DecodeQuanta(s[4..]).value);
    assert s[..4] == [s[0], s[1], s[2], s[3]];
  }

  lemma {:induction false} CanonicalIsEncode(s: seq<byte>)
    requires DecodeQuanta(s).Some?
    ensures Canonical(s) == Encode(DecodeQuanta(s).value)
  {
    if |s| >= 4 {
      if s[2] != PAD && s[3] != PAD {
        FullQuantum(s);
        CanonicalIsEncode(s[4..]);
        if |s| == 4 { assert s == s[..4] + []; }
      } else {
        CanonicalPadded(s);
      }
    }
  }

  lemma MaskedBytes(p: sextet, q: sextet, r: sextet)
    ensures B0(p, q & 48) == B0(p, q)
    ensures B1(q, r & 60) == B1(q, r)
  {
  }

  lemma {:induction false} CanonicalDecodesAlike(s: seq<byte>)
    ensures DecodeQuanta(Canonical(s)) == DecodeQuanta(s)
  {
    if |s| > 4 {
      CanonicalDecodesAlike(s[4..]);
      CanonicalLength(s[4..]);
      var c := Canonical(s);
      assert c[4..] == Canonical(s[4..]);
      assert c[0] == s[0] && c[1] == s[1] && c[2] == s[2] && c[3] == s[3];
    } else if |s| == 4 && s[3] == PAD {
      var p := match Undigit(s[0]) { case None => 0 case Some(p) => p };
      if s[2] != PAD && Undigit(s[2]).Some? {
        UndigitDigit(Undigit(s[2]).value & 60);
        var q := match Undigit(s[1]) { case None => 0 case Some(q) => q };
        MaskedBytes(p, q, Undigit(s[2]).value);
      } else if s[2] == PAD && Undigit(s[1]).Some? {
        UndigitDigit(Undigit(s[1]).value & 48);
        MaskedBytes(p, Undigit(s[1]).value, 0);
      }
    }
  }

  lemma {:induction false} CanonicalLength(s: seq<byte>)
    ensures |Canonical(s)| == |s|
  {
    if |s| > 4 { CanonicalLength(s[4..]); }
  }

  /** Decoding is not injective: a line break anywhere is skipped ... */
  lemma {:induction false} DecodeSkipsBreaks(a: seq<byte>, c: byte, b: seq<byte>)
    requires IsBreak(c)
    ensures Unbroken(a + [c] + b) == Unbroken(a + b)
    ensures Decode(a + [c] + b) == Decode(a + b)
  {
    if a == [] {
      assert ([c] + b)[1..] == b && a + [c] + b == [c] + b && a + b == b;
    } else {
      DecodeSkipsBreaks(a[1..], c, b);
      assert (a + [c] + b)[1..] == a[1..] + [c] + b && (a + b)[1..] == a[1..] + b;
    }
  }

  /** ... and so are the low bits before the padding. */
  lemma DecodeIgnoresStrayBits(p: sextet, q: sextet, r: sextet)
    ensures DecodeQuanta([Digit(p), Digit(q), PAD, PAD]) == DecodeQuanta([Digit(p), Digit(q & 48), PAD, PAD])
    ensures DecodeQuanta([Digit(p), Digit(q), Digit(r), PAD]) == DecodeQuanta([Digit(p), Digit(q), Digit(r & 60), PAD])
    ensures DecodeQuanta([Digit(p), Digit(q), PAD, PAD]) == Some([B0(p, q)])
  {
    UndigitDigit(p); UndigitDigit(q); UndigitDigit(r);
    UndigitDigit(q & 48); UndigitDigit(r & 60);
    MaskedBytes(p, q, r);
  }

  // ---------------------------------------------------------------- the standard

  /** Table 1 of RFC 4648, as runs of consecutive characters: `A` to `Z`, `a` to
      `z`, `0` to `9`, then `+` and `/`; and `=` pads. */
  lemma Alphabet(i: sextet)
    ensures Digit(0) == 65 && Digit(26) == 97 && Digit(52) == 48 && Digit(62) == 43 && Digit(63) == 47 && PAD == 61
    ensures i < 61 && i != 25 && i != 51 ==> Digit(i + 1) == Digit(i) + 1
  {
  }

  /** The bits of three bytes are those of four digits, the first ones first. */
  predicate SameBits(a: byte, b: byte, c: byte, p: sextet, q: sextet, r: sextet, s: sextet) {
    (a as bv24 << 16) | (b as bv24 << 8) | c as bv24
    == (p as bv24 << 18) | (q as bv24 << 12) | (r as bv24 << 6) | s as bv24
  }

  lemma DigitBits(a: byte, b: byte, c: byte)
    ensures SameBits(a, b, c, D0(a), D1(a, b), D2(b, c), D3(c))
  {
  }

  /** Section 4 of RFC 4648: a group of three bytes is written as its 24 bits in
      four digits, and a last shorter group with zero bits and padding. */
  lemma EncodesBits(a: byte, b: byte, c: byte, rest: seq<byte>)
    ensures exists p, q, r, s :: SameBits(a, b, c, p, q, r, s)
              && Encode([a, b, c] + rest) == [Digit(p), Digit(q), Digit(r), Digit(s)] + Encode(rest)
    ensures exists p, q, r, s :: SameBits(a, b, 0, p, q, r, s) && Encode([a, b]) == [Digit(p), Digit(q), Digit(r), PAD]
    ensures exists p, q, r, s :: SameBits(a, 0, 0, p, q, r, s) && Encode([a]) == [Digit(p), Digit(q), PAD, PAD]
    ensures Encode([]) == []
  {
    hide SameBits, Digit;
    DigitBits(a, b, c);
    DigitBits(a, b, 0);
    DigitBits(a, 0, 0);
    assert ([a, b, c] + rest)[3..] == rest;
  }
}
