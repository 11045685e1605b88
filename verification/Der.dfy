/**
 * The DER printer that turns an RSA key of a JWK into a SubjectPublicKeyInfo
 * (core/src/enterprise/sso.rs:583-643), against a strict reader written from ITU-T X.690
 * (sections 8.1.3, 8.3, 10.1), section 4.1 of RFC 5280 and appendix A.1.1 of RFC 8017.
 */
module Der {
  import opened Common
  import opened BigEndian

  const INTEGER: byte := 0x02
  const BIT_STRING: byte := 0x03
  const SEQUENCE: byte := 0x30
  const MAX_LENGTH: nat := 0x1_0000_0000

  /** SEQUENCE { OBJECT IDENTIFIER 1.2.840.113549.1.1.1, NULL } */
  const RSA_ENCRYPTION: bytes :=
    [0x30, 0x0d, 0x06, 0x09, 0x2a, 0x86, 0x48, 0x86, 0xf7, 0x0d, 0x01, 0x01, 0x01, 0x05, 0x00]

  // ---------------------------------------------------------------- printing

  /** The shortest form; beyond four bytes the number is truncated. */
  function Length(n: nat): bytes {
    if n < 0x80 then [n]
    else if n <= 0xFF then [0x81] + ToBytes(n, 1)
    else if n <= 0xFFFF then [0x82] + ToBytes(n, 2)
    else if n <= 0xFF_FFFF then [0x83] + ToBytes(n, 3)
    else [0x84] + ToBytes(n, 4)
  }

  function Tagged(tag: byte, content: bytes): bytes {
    [tag] + Length(|content|) + content
  }

  /** Without leading zeros; zero keeps one byte. */
  function Stripped(bs: bytes): (r: bytes)
    requires bs != []
    ensures r != [] && (|r| > 1 ==> r[0] != 0)
  {
    if |bs| > 1 && bs[0] == 0 then Stripped(bs[1..]) else bs
  }

  /** A zero byte in front keeps the number positive. */
  function Positive(bs: bytes): bytes
    requires bs != []
  {
    if bs[0] >= 0x80 then [0] + bs else bs
  }

  function Integer(bs: bytes): bytes
    requires bs != []
  {
    Tagged(INTEGER, Positive(Stripped(bs)))
  }

  function RsaPublicKey(n: bytes, e: bytes): bytes
    requires n != [] && e != []
  {
    Tagged(SEQUENCE, Integer(n) + Integer(e))
  }

  function BitString(content: bytes): bytes {
    Tagged(BIT_STRING, [0] + content)
  }

  function Spki(n: bytes, e: bytes): bytes
    requires n != [] && e != []
  {
    Tagged(SEQUENCE, RSA_ENCRYPTION + BitString(RsaPublicKey(n, e)))
  }

  // ---------------------------------------------------------------- strict reading

  /** A definite length in its shortest form, and what follows it. */
  function ReadLength(bs: bytes): Option<(nat, bytes)> {
    if bs == [] then None
    else if bs[0] < 0x80 then Some((bs[0], bs[1..]))
    else
      var k := bs[0] - 0x80;
      if k == 0 || k == 0x7F || |bs| < 1 + k || bs[1] == 0 then None
      else
        var n := FromBytes(bs[1..1 + k]);
        if n < 0x80 then None else Some((n, bs[1 + k..]))
  }

  /** The content of one element with this tag, and what follows it. */
  function ReadTagged(tag: byte, bs: bytes): Option<(bytes, bytes)> {
    if bs == [] || bs[0] != tag then None
    else
      match ReadLength(bs[1..])
      case None => None
      case Some(l) => if l.0 > |l.1| then None else Some((l.1[..l.0], l.1[l.0..]))
  }

  /** The first nine bits of a longer integer are not all equal. */
  predicate IsMinimal(content: bytes) {
    && content != []
    && (|content| > 1 ==> !(content[0] == 0 && content[1] < 0x80) && !(content[0] == 0xFF && content[1] >= 0x80))
  }

  /** Two's complement. */
  function Signed(content: bytes): int {
    if content != [] && content[0] >= 0x80 then FromBytes(content) - Span(|content|) else FromBytes(content)
  }

  function ReadInteger(bs: bytes): Option<(int, bytes)> {
    match ReadTagged(INTEGER, bs)
    case None => None
    case Some(r) => if IsMinimal(r.0) then Some((Signed(r.0), r.1)) else None
  }

  function ReadRsaPublicKey(bs: bytes): Option<(int, int)> {
    match ReadTagged(SEQUENCE, bs)
    case None => None
    case Some(r) =>
      if r.1 != [] then None
      else
        match ReadInteger(r.0)
        case None => None
        case Some(n) =>
          match ReadInteger(n.1)
          case None => None
          case Some(e) => if e.1 == [] then Some((n.0, e.0)) else None
  }

  /** A bit string of whole bytes. */
  function ReadBitString(bs: bytes): Option<(bytes, bytes)> {
    match ReadTagged(BIT_STRING, bs)
    case None => None
    case Some(r) => if r.0 != [] && r.0[0] == 0 then Some((r.0[1..], r.1)) else None
  }

  /** The algorithm must be rsaEncryption with a NULL parameter; nothing may follow any part. */
  function ReadSpki(bs: bytes): Option<(int, int)> {
    match ReadTagged(SEQUENCE, bs)
    case None => None
    case Some(r) =>
      if r.1 != [] then None
      else
        match ReadTagged(SEQUENCE, r.0)
        case None => None
        case Some(alg) =>
          if alg.0 != RSA_ENCRYPTION[2..] then None
          else
            match ReadBitString(alg.1)
            case None => None
            case Some(key) => if key.1 == [] then ReadRsaPublicKey(key.0) else None
  }

  // ---------------------------------------------------------------- lengths

  lemma Spans()
    ensures Span(1) == 0x100 && Span(2) == 0x1_0000 && Span(3) == 0x100_0000 && Span(4) == MAX_LENGTH
  {
    assert Span(0) == 1;
  }

  /** Reading the long form with k length bytes. */
  lemma LongForm(n: nat, k: nat, rest: bytes)
    requires 1 <= k <= 4 && 0x80 <= n < Span(k) && Span(k - 1) <= n
    ensures ReadLength([0x80 + k] + ToBytes(n, k) + rest) == Some((n, rest))
  {
    var body := ToBytes(n, k);
    var all := [0x80 + k] + body + rest;
    assert all[1..1 + k] == body && all[1 + k..] == rest;
    FromToBytes(n, k);
    if body[0] == 0 {
      LeadingZero(body);
      FromBytesBelow(body[1..]);
    }
  }

  lemma {:induction false} LeadingZero(bs: bytes)
    requires bs != [] && bs[0] == 0
    ensures FromBytes(bs) == FromBytes(bs[1..])
  {
    assert bs == [0] + bs[1..];
    FromBytesCons(0, bs[1..]);
  }

  /** A printed length reads back, before anything, exactly when it is below 2^32. */
  lemma {:induction false} LengthExactly(n: nat, rest: bytes)
    ensures ReadLength(Length(n) + rest) == Some((n, rest)) <==> n < MAX_LENGTH
  {
    Spans();
    if n < 0x80 {
    } else if n <= 0xFF {
      LongForm(n, 1, rest);
    } else if n <= 0xFFFF {
      LongForm(n, 2, rest);
    } else if n <= 0xFF_FFFF {
      LongForm(n, 3, rest);
    } else if n < MAX_LENGTH {
      LongForm(n, 4, rest);
    } else {
      var all := Length(n) + rest;
      assert all[1..5] == ToBytes(n, 4);
      FromBytesBelow(ToBytes(n, 4));
    }
  }

  lemma {:induction false} TaggedReads(tag: byte, content: bytes, rest: bytes)
    requires |content| < MAX_LENGTH
    ensures ReadTagged(tag, Tagged(tag, content) + rest) == Some((content, rest))
  {
    hide Length, ReadLength;
    var all := Tagged(tag, content) + rest;
    assert all[1..] == Length(|content|) + (content + rest);
    LengthExactly(|content|, content + rest);
  }

  // ---------------------------------------------------------------- integers

  lemma {:induction false} StrippedValue(bs: bytes)
    requires bs != []
    ensures FromBytes(Stripped(bs)) == FromBytes(bs) && |Stripped(bs)| <= |bs|
  {
    if |bs| > 1 && bs[0] == 0 {
      LeadingZero(bs);
      StrippedValue(bs[1..]);
    }
  }

  lemma {:induction false} IntegerContent(bs: bytes)
    requires bs != []
    ensures var content := Positive(Stripped(bs)); IsMinimal(content) && Signed(content) == FromBytes(bs)
  {
    hide FromBytes;
    StrippedValue(bs);
    var content := Positive(Stripped(bs));
    if content != Stripped(bs) {
      LeadingZero(content);
      assert content[1..] == Stripped(bs);
    }
  }

  lemma {:induction false} IntegerReads(bs: bytes, rest: bytes)
    requires bs != [] && |Positive(Stripped(bs))| < MAX_LENGTH
    ensures ReadInteger(Integer(bs) + rest) == Some((FromBytes(bs), rest))
  {
    hide Tagged, ReadTagged, FromBytes, IsMinimal, Signed;
    IntegerContent(bs);
    TaggedReads(INTEGER, Positive(Stripped(bs)), rest);
  }

  // ---------------------------------------------------------------- the key

  /** Every element of the key, the whole content included, is shorter than 2^32 bytes. */
  predicate Encodable(n: bytes, e: bytes)
    requires n != [] && e != []
  {
    |RSA_ENCRYPTION| + |BitString(RsaPublicKey(n, e))| < MAX_LENGTH
  }

  lemma LengthSize(n: nat)
    ensures 1 <= |Length(n)| <= 5
  {
  }

  lemma TaggedSize(tag: byte, content: bytes)
    ensures |Tagged(tag, content)| == 1 + |Length(|content|)| + |content| > |content| + 1
  {
    LengthSize(|content|);
  }

  lemma {:induction false} PartsFit(n: bytes, e: bytes)
    requires n != [] && e != [] && Encodable(n, e)
    ensures |Integer(n) + Integer(e)| < MAX_LENGTH && |RsaPublicKey(n, e)| + 1 < MAX_LENGTH
    ensures |Positive(Stripped(n))| < MAX_LENGTH && |Positive(Stripped(e))| < MAX_LENGTH
  {
    hide Tagged;
    TaggedSize(BIT_STRING, [0] + RsaPublicKey(n, e));
    TaggedSize(SEQUENCE, Integer(n) + Integer(e));
    TaggedSize(INTEGER, Positive(Stripped(n)));
    TaggedSize(INTEGER, Positive(Stripped(e)));
  }

  lemma {:induction false} KeyReads(n: bytes, e: bytes)
    requires n != [] && e != [] && Encodable(n, e)
    ensures ReadRsaPublicKey(RsaPublicKey(n, e)) == Some((FromBytes(n), FromBytes(e)))
  {
    hide Tagged, ReadTagged, FromBytes, ReadInteger, Integer;
    PartsFit(n, e);
    var content := Integer(n) + Integer(e);
    assert Tagged(SEQUENCE, content) + [] == Tagged(SEQUENCE, content);
    TaggedReads(SEQUENCE, content, []);
    IntegerReads(n, Integer(e));
    assert Integer(e) + [] == Integer(e);
    IntegerReads(e, []);
  }

  lemma {:induction false} BitStringReads(content: bytes)
    requires |content| + 1 < MAX_LENGTH
    ensures ReadBitString(BitString(content)) == Some((content, []))
  {
    hide Tagged, ReadTagged;
    assert BitString(content) + [] == BitString(content);
    TaggedReads(BIT_STRING, [0] + content, []);
    assert ([0] + content)[1..] == content;
  }

  lemma AlgorithmIsTagged()
    ensures Tagged(SEQUENCE, RSA_ENCRYPTION[2..]) == RSA_ENCRYPTION
  {
    assert |RSA_ENCRYPTION[2..]| == 13;
    assert Length(13) == [0x0d];
  }

  /** A strict reader recovers the unsigned modulus and exponent from what is printed. */
  lemma {:induction false} SpkiReads(n: bytes, e: bytes)
    requires n != [] && e != [] && Encodable(n, e)
    ensures ReadSpki(Spki(n, e)) == Some((FromBytes(n), FromBytes(e)))
  {
    hide Tagged, ReadTagged, FromBytes, ReadRsaPublicKey, RsaPublicKey, ReadBitString, BitString;
    PartsFit(n, e);
    var key := RsaPublicKey(n, e);
    var content := RSA_ENCRYPTION + BitString(key);
    assert Tagged(SEQUENCE, content) + [] == Tagged(SEQUENCE, content);
    TaggedReads(SEQUENCE, content, []);
    AlgorithmIsTagged();
    TaggedReads(SEQUENCE, RSA_ENCRYPTION[2..], BitString(key));
    BitStringReads(key);
    KeyReads(n, e);
  }

  // ---------------------------------------------------------------- the only encoding

  lemma LongLength(n: nat, k: nat)
    requires 1 <= k <= 4 && 0x80 <= n < Span(k) && (k > 1 ==> Span(k - 1) <= n)
    ensures Length(n) == [0x80 + k] + ToBytes(n, k)
  {
    hide ToBytes;
    Spans();
  }

  /** A length that reads as n is the printed n. */
  lemma {:induction false} LengthIsPrinted(bs: bytes, n: nat, rest: bytes)
    requires ReadLength(bs) == Some((n, rest)) && n < MAX_LENGTH
    ensures bs == Length(n) + rest
  {
    hide Length, FromBytes, ToBytes, Span;
    if bs[0] < 0x80 {
      ShortLength(bs[0]);
      assert bs == [bs[0]] + bs[1..];
    } else {
      var k: nat := bs[0] - 0x80;
      var body := bs[1..1 + k];
      FromBytesAtLeast(body);
      FromBytesBelow(body);
      Spans();
      if k >= 5 {
        SpanGrows(4, k - 1);
        assert false;
      }
      ToFromBytes(body);
      LongLength(n, k);
      assert bs == [bs[0]] + body + rest;
    }
  }

  lemma ShortLength(n: nat)
    requires n < 0x80
    ensures Length(n) == [n]
  {
  }

  lemma {:induction false} TaggedIsPrinted(tag: byte, bs: bytes, content: bytes, rest: bytes)
    requires ReadTagged(tag, bs) == Some((content, rest)) && |content| < MAX_LENGTH
    ensures bs == Tagged(tag, content) + rest
  {
    hide Length, ReadLength;
    var l := ReadLength(bs[1..]).value;
    LengthIsPrinted(bs[1..], l.0, l.1);
    assert l.1 == content + rest;
    assert bs == [tag] + bs[1..];
  }

  lemma ReadIsShorter(tag: byte, bs: bytes)
    ensures match ReadTagged(tag, bs) case Some(r) => |r.0| + |r.1| < |bs| case None => true
  {
  }

  /** A non-negative integer that reads is a printed one. */
  lemma {:induction false} IntegerIsPrinted(bs: bytes, v: int, rest: bytes) returns (digits: bytes)
    requires ReadInteger(bs) == Some((v, rest)) && v >= 0 && |bs| < MAX_LENGTH
    ensures digits != [] && FromBytes(digits) == v && bs == Integer(digits) + rest
  {
    hide Tagged, ReadTagged;
    ReadIsShorter(INTEGER, bs);
    var content := ReadTagged(INTEGER, bs).value.0;
    TaggedIsPrinted(INTEGER, bs, content, rest);
    FromBytesBelow(content);
    digits := if |content| > 1 && content[0] == 0 then content[1..] else content;
    if digits != content {
      LeadingZero(content);
      assert content == [0] + digits;
    }
    assert Positive(Stripped(digits)) == content;
  }

  lemma {:induction false} KeyIsPrinted(bs: bytes, n: int, e: int) returns (ns: bytes, es: bytes)
    requires ReadRsaPublicKey(bs) == Some((n, e)) && n >= 0 && e >= 0 && |bs| < MAX_LENGTH
    ensures ns != [] && es != [] && FromBytes(ns) == n && FromBytes(es) == e && bs == RsaPublicKey(ns, es)
  {
    hide Tagged, ReadTagged, ReadInteger, Integer, FromBytes;
    ReadIsShorter(SEQUENCE, bs);
    var content := ReadTagged(SEQUENCE, bs).value.0;
    TaggedIsPrinted(SEQUENCE, bs, content, []);
    var rest := ReadInteger(content).value.1;
    ns := IntegerIsPrinted(content, n, rest);
    es := IntegerIsPrinted(rest, e, []);
    assert content == Integer(ns) + Integer(es);
    assert bs == Tagged(SEQUENCE, content);
  }

  lemma {:induction false} BitStringIsPrinted(bs: bytes, content: bytes, rest: bytes)
    requires ReadBitString(bs) == Some((content, rest)) && |bs| < MAX_LENGTH
    ensures bs == BitString(content) + rest && |content| < |bs|
  {
    hide Tagged, ReadTagged;
    ReadIsShorter(BIT_STRING, bs);
    var body := ReadTagged(BIT_STRING, bs).value.0;
    TaggedIsPrinted(BIT_STRING, bs, body, rest);
    assert body == [0] + content;
  }

  /** The reader accepts printed keys only: whatever reads as a non-negative key is what is printed for it. */
  lemma {:induction false} SpkiIsPrinted(bs: bytes, n: int, e: int) returns (ns: bytes, es: bytes)
    requires ReadSpki(bs) == Some((n, e)) && n >= 0 && e >= 0 && |bs| < MAX_LENGTH
    ensures ns != [] && es != [] && FromBytes(ns) == n && FromBytes(es) == e && bs == Spki(ns, es)
  {
    hide Tagged, ReadTagged, ReadRsaPublicKey, RsaPublicKey, ReadBitString, BitString, FromBytes;
    ReadIsShorter(SEQUENCE, bs);
    var content := ReadTagged(SEQUENCE, bs).value.0;
    TaggedIsPrinted(SEQUENCE, bs, content, []);
    ReadIsShorter(SEQUENCE, content);
    var tail := ReadTagged(SEQUENCE, content).value.1;
    TaggedIsPrinted(SEQUENCE, content, RSA_ENCRYPTION[2..], tail);
    AlgorithmIsTagged();
    var key := ReadBitString(tail).value.0;
    BitStringIsPrinted(tail, key, []);
    ns, es := KeyIsPrinted(key, n, e);
    assert content == RSA_ENCRYPTION + BitString(key);
    assert bs == Tagged(SEQUENCE, content);
  }

  lemma {:induction false} StrippedExactly(a: bytes, b: bytes)
    requires a != [] && b != []
    ensures Stripped(a) == Stripped(b) <==> FromBytes(a) == FromBytes(b)
  {
    StrippedValue(a);
    StrippedValue(b);
    if FromBytes(a) == FromBytes(b) {
      SameValueSameLength(Stripped(a), Stripped(b));
      SameValueSameLength(Stripped(b), Stripped(a));
      ToFromBytes(Stripped(a));
      ToFromBytes(Stripped(b));
    }
  }

  lemma {:induction false} SameValueSameLength(a: bytes, b: bytes)
    requires a != [] && b != [] && FromBytes(a) == FromBytes(b) && (|b| > 1 ==> b[0] != 0)
    ensures |a| >= |b|
  {
    if |a| < |b| {
      FromBytesAtLeast(b);
      FromBytesBelow(a);
      SpanGrows(|a|, |b| - 1);
    }
  }

  /** Two keys print the same exactly when they are the same numbers, whatever zeros they were written with. */
  lemma {:induction false} SpkiExactly(n: bytes, e: bytes, m: bytes, f: bytes)
    requires n != [] && e != [] && m != [] && f != [] && Encodable(n, e) && Encodable(m, f)
    ensures Spki(n, e) == Spki(m, f) <==> FromBytes(n) == FromBytes(m) && FromBytes(e) == FromBytes(f)
  {
    hide FromBytes, ReadSpki, Tagged;
    SpkiReads(n, e);
    SpkiReads(m, f);
    StrippedExactly(n, m);
    StrippedExactly(e, f);
  }

  // ---------------------------------------------------------------- the bytes themselves

  /** A length below 2^32, written out. */
  lemma LengthBytes(n: nat)
    requires n < 0x1_0000_0000
    ensures Length(n) ==
            if n < 0x80 then [n]
            else if n < 0x100 then [0x81, n]
            else if n < 0x1_0000 then [0x82, n / 0x100, n % 0x100]
            else if n < 0x100_0000 then [0x83, n / 0x1_0000, n / 0x100 % 0x100, n % 0x100]
            else [0x84, n / 0x100_0000, n / 0x1_0000 % 0x100, n / 0x100 % 0x100, n % 0x100]
  {
    hide ToBytes;
    FourBytes(n);
    ThreeBytes(n);
    TwoBytes(n);
    OneByte(n);
  }

  lemma ShortTagged(tag: byte, content: bytes)
    requires |content| < 0x80
    ensures Tagged(tag, content) == [tag, |content|] + content
  {
  }

  /** The whole key of a modulus and an exponent that need neither stripping nor a sign byte, with all lengths below 128. */
  lemma {:induction false} ShortKeyBytes(n: bytes, e: bytes)
    requires n != [] && e != [] && 0 < n[0] < 0x80 && 0 < e[0] < 0x80 && |n| + |e| < 0x80 - 24
    ensures Spki(n, e) ==
            [0x30, |n| + |e| + 24]
            + ([0x30, 0x0d, 0x06, 0x09, 0x2a, 0x86, 0x48, 0x86, 0xf7, 0x0d, 0x01, 0x01, 0x01, 0x05, 0x00]
               + ([0x03, |n| + |e| + 7] + ([0x00] + ([0x30, |n| + |e| + 4] + (([0x02, |n|] + n) + ([0x02, |e|] + e))))))
  {
    hide Tagged;
    ShortTagged(INTEGER, n);
    ShortTagged(INTEGER, e);
    ShortTagged(SEQUENCE, Integer(n) + Integer(e));
    var key := RsaPublicKey(n, e);
    ShortTagged(BIT_STRING, [0x00] + key);
    ShortTagged(SEQUENCE, RSA_ENCRYPTION + BitString(key));
  }

  /** A leading zero is dropped, and a high bit gets a zero in front. */
  lemma {:induction false} IntegerBytes(first: byte, rest: bytes)
    requires |rest| < 0x7e
    ensures 0 < first < 0x80 ==> Integer([first] + rest) == [0x02, |rest| + 1] + ([first] + rest)
    ensures 0x80 <= first ==> Integer([first] + rest) == [0x02, |rest| + 2] + ([0x00] + ([first] + rest))
    ensures first == 0 && rest != [] ==> Integer([first] + rest) == Integer(rest)
    ensures first == 0 && rest == [] ==> Integer([first] + rest) == [0x02, 0x01] + [0x00]
  {
    hide Tagged;
    var bs := [first] + rest;
    if first == 0 && rest != [] {
      assert bs[1..] == rest;
    } else {
      assert Stripped(bs) == bs;
      ShortTagged(INTEGER, Positive(bs));
    }
  }

  // ---------------------------------------------------------------- the printer's loops

  /** Skips leading zeros, then writes tag, length, sign byte and digits. */
  method DerInteger(bs: bytes) returns (out: bytes)
    requires bs != []
    ensures out == Integer(bs)
  {
    var b := bs;
    while |b| > 1 && b[0] == 0
      invariant b != [] && Stripped(b) == Stripped(bs)
      decreases |b|
    {
      b := b[1..];
    }
    out := [INTEGER];
    if b[0] >= 0x80 {
      out := out + Length(|b| + 1);
      out := out + [0];
    } else {
      out := out + Length(|b|);
    }
    out := out + b;
  }

  /** The children one after another under one header. */
  method DerSequence(children: seq<bytes>) returns (out: bytes)
    ensures out == Tagged(SEQUENCE, Flatten(children))
  {
    var body: bytes := [];
    var i := 0;
    assert children[..0] == [];
    while i < |children|
      invariant 0 <= i <= |children| && body == Flatten(children[..i])
    {
      assert children[..i + 1] == children[..i] + [children[i]];
      FlattenSnoc(children[..i], children[i]);
      body := body + children[i];
      i := i + 1;
    }
    assert children[..i] == children;
    out := [SEQUENCE];
    out := out + Length(|body|);
    out := out + body;
  }

  /** The SubjectPublicKeyInfo of a JWK's modulus and exponent. */
  method JwkRsaToSpki(n: bytes, e: bytes) returns (spki: bytes)
    requires n != [] && e != []
    ensures spki == Spki(n, e)
  {
    var modulus := DerInteger(n);
    var exponent := DerInteger(e);
    var key := DerSequence([modulus, exponent]);
    FlattenTwo(modulus, exponent);
    var bits := [0] + key;
    var bitString := [BIT_STRING];
    bitString := bitString + Length(|bits|);
    bitString := bitString + bits;
    spki := DerSequence([RSA_ENCRYPTION, bitString]);
    FlattenTwo(RSA_ENCRYPTION, bitString);
  }

  lemma FlattenTwo(a: bytes, b: bytes)
    ensures Flatten([a, b]) == a + b
  {
    assert [a, b][1..] == [b] && [b][1..] == [];
    assert Flatten([b]) == b + [];
  }
}
