/**
 * Stage 4 of the handler: every record is rebuilt through `Property::set` with an id, the
 * lowercase hexadecimal SHA-256 digest of the UTF-8 bytes of its fields concatenated in a
 * fixed order. SHA-256 itself is a parameter: only its input bytes and the rendering of its
 * 32-byte output are modelled.
 */
module Finalizer {
  import opened Wrappers
  import opened PropertyRecord

  newtype byte = x: int | 0 <= x < 256

  /** SHA-256 as the finalizer sees it: 32 bytes for every message. */
  type Sha256 = f: seq<byte> -> seq<byte> | forall m :: |f(m)| == 32
    witness (m: seq<byte>) => seq(32, k => 0 as byte)

  // ---------------------------------------------------------------- UTF-8

  /** A Unicode scalar value: what a `char` holds. */
  predicate IsScalar(n: int) {
    0 <= n < 0xD800 || 0xE000 <= n < 0x11_0000
  }

  /** The UTF-8 encoding of one character (section 3 of RFC 3629). */
  function EncodeChar(c: char): (bs: seq<byte>)
    ensures 1 <= |bs| <= 4
  {
    var n := c as int;
    var q1, r0 := n / 64, n % 64;
    var q2, r1 := q1 / 64, q1 % 64;
    var q3, r2 := q2 / 64, q2 % 64;
    if n < 0x80 then [n as byte]
    else if n < 0x800 then [(0xC0 + q1) as byte, (0x80 + r0) as byte]
    else if n < 0x1_0000 then [(0xE0 + q2) as byte, (0x80 + r1) as byte, (0x80 + r0) as byte]
    else [(0xF0 + q3) as byte, (0x80 + r2) as byte, (0x80 + r1) as byte, (0x80 + r0) as byte]
  }

  /** The UTF-8 bytes of a string, as `hasher.update(&String)` feeds them. */
  function Utf8(s: string): seq<byte>
    decreases |s|
  {
    if s == [] then [] else EncodeChar(s[0]) + Utf8(s[1..])
  }

  predicate IsContinuation(b: byte) { 0x80 <= b < 0xC0 }

  /** The character the bytes open with and the number of bytes it takes, if they open
      with a well-formed sequence. */
  function DecodeFirst(bs: seq<byte>): Option<(char, nat)>
    requires bs != []
  {
    var b0 := bs[0] as int;
    var decoded: (int, nat) :=
      if b0 < 0x80 then (b0, 1)
      else if 0xC0 <= b0 < 0xE0 && |bs| >= 2 && IsContinuation(bs[1]) then
        ((b0 - 0xC0) * 64 + (bs[1] as int - 0x80), 2)
      else if 0xE0 <= b0 < 0xF0 && |bs| >= 3 && IsContinuation(bs[1]) && IsContinuation(bs[2]) then
        (((b0 - 0xE0) * 64 + (bs[1] as int - 0x80)) * 64 + (bs[2] as int - 0x80), 3)
      else if 0xF0 <= b0 < 0xF8 && |bs| >= 4 && IsContinuation(bs[1]) && IsContinuation(bs[2])
              && IsContinuation(bs[3]) then
        ((((b0 - 0xF0) * 64 + (bs[1] as int - 0x80)) * 64 + (bs[2] as int - 0x80)) * 64 + (bs[3] as int - 0x80), 4)
      else (-1, 0);
    var n, len := decoded.0, decoded.1;
    if len == 0 || !IsScalar(n) then None else Some((n as char, len))
  }

  /** UTF-8 decoding of a whole byte string; `None` on an ill-formed sequence. */
  function DecodeUtf8(bs: seq<byte>): Option<string>
    decreases |bs|
  {
    if bs == [] then Some([])
    else match DecodeFirst(bs)
      case None => None
      case Some((c, len)) =>
        if len == 0 || len > |bs| then None
        else match DecodeUtf8(bs[len..])
          case None => None
          case Some(rest) => Some([c] + rest)
  }

  /** Decoding reads back the character the encoder wrote, whatever follows it. */
  lemma DecodeEncodedChar(c: char, rest: seq<byte>)
    ensures DecodeFirst(EncodeChar(c) + rest) == Some((c, |EncodeChar(c)|))
  {
    var n := c as int;
    var q1, r0 := n / 64, n % 64;
    var q2, r1 := q1 / 64, q1 % 64;
    var q3, r2 := q2 / 64, q2 % 64;
    assert n == q1 * 64 + r0;
    assert q1 == q2 * 64 + r1;
    assert q2 == q3 * 64 + r2;
    var bs := EncodeChar(c) + rest;
    assert bs[0] == EncodeChar(c)[0];
    if n >= 0x80 {
      assert bs[1] == EncodeChar(c)[1];
      if n >= 0x800 {
        assert bs[2] == EncodeChar(c)[2];
        if n >= 0x1_0000 {
          assert bs[3] == EncodeChar(c)[3];
        }
      }
    }
  }

  /** Decoding the UTF-8 encoding of a string gives the string back. */
  lemma {:induction false} Utf8RoundTrip(s: string)
    ensures DecodeUtf8(Utf8(s)) == Some(s)
    decreases |s|
  {
    if s != [] {
      var e := EncodeChar(s[0]);
      DecodeEncodedChar(s[0], Utf8(s[1..]));
      assert (e + Utf8(s[1..]))[|e|..] == Utf8(s[1..]);
      Utf8RoundTrip(s[1..]);
      assert [s[0]] + s[1..] == s;
    }
  }

  /** Distinct strings have distinct UTF-8 encodings. */
  lemma Utf8Injective(s: string, t: string)
    requires Utf8(s) == Utf8(t)
    ensures s == t
  {
    Utf8RoundTrip(s);
    Utf8RoundTrip(t);
  }

  // ---------------------------------------------------------------- lowercase hex

  const HexDigits: string := "0123456789abcdef"

  /** `format!("{:x}", digest)`: two lowercase hexadecimal digits per byte, high nibble first. */
  function Hex(bs: seq<byte>): (h: string)
    ensures |h| == 2 * |bs|
    decreases |bs|
  {
    if bs == [] then []
    else [HexDigits[bs[0] / 16], HexDigits[bs[0] % 16]] + Hex(bs[1..])
  }

  /** The rendering uses only the sixteen lowercase hexadecimal digits. */
  lemma {:induction false} HexDigitsOnly(bs: seq<byte>)
    ensures forall k :: 0 <= k < |Hex(bs)| ==> Hex(bs)[k] in HexDigits
    decreases |bs|
  {
    if bs != [] {
      HexDigitsOnly(bs[1..]);
      var h := Hex(bs);
      assert forall k :: 2 <= k < |h| ==> h[k] == Hex(bs[1..])[k - 2];
    }
  }

  /** The value of a lowercase hexadecimal digit. */
  function DigitValue(c: char): (d: Option<nat>)
    ensures d.Some? ==> d.value < 16
  {
    if '0' <= c <= '9' then Some(c as nat - '0' as nat)
    else if 'a' <= c <= 'f' then Some(c as nat - 'a' as nat + 10)
    else None
  }

  /** Reading two lowercase hex digits per byte; `None` on an odd length or another character. */
  function Unhex(h: string): Option<seq<byte>>
    decreases |h|
  {
    if h == [] then Some([])
    else if |h| == 1 then None
    else match DigitValue(h[0])
      case None => None
      case Some(hi) =>
        match DigitValue(h[1])
        case None => None
        case Some(lo) =>
          match Unhex(h[2..])
          case None => None
          case Some(rest) => Some([(hi * 16 + lo) as byte] + rest)
  }

  /** Two digits in front of a readable rest are read as one byte in front of the rest's bytes. */
  lemma UnhexStep(h: string)
    requires |h| >= 2 && DigitValue(h[0]).Some? && DigitValue(h[1]).Some? && Unhex(h[2..]).Some?
    ensures Unhex(h) ==
      Some([(DigitValue(h[0]).value * 16 + DigitValue(h[1]).value) as byte] + Unhex(h[2..]).value)
  {
  }

  lemma DigitValueOf(k: nat)
    requires k < 16
    ensures DigitValue(HexDigits[k]) == Some(k)
  {
  }

  /** Reading the hex rendering gives the bytes back. */
  lemma {:induction false} HexRoundTrip(bs: seq<byte>)
    ensures Unhex(Hex(bs)) == Some(bs)
    decreases |bs|
  {
    if bs != [] {
      var b := bs[0];
      var hi, lo := (b / 16) as nat, (b % 16) as nat;
      DigitValueOf(hi);
      DigitValueOf(lo);
      var h := Hex(bs);
      assert h == [HexDigits[hi], HexDigits[lo]] + Hex(bs[1..]);
      assert h[0] == HexDigits[hi] && h[1] == HexDigits[lo] && h[2..] == Hex(bs[1..]);
      HexRoundTrip(bs[1..]);
      assert DigitValue(h[0]).value == hi && DigitValue(h[1]).value == lo;
      UnhexStep(h);
      assert (hi * 16 + lo) as byte == b;
      assert Unhex(h).value == [b] + bs[1..];
      assert [b] + bs[1..] == bs;
    }
  }

  // ---------------------------------------------------------------- the id

  /** The `format!` of the finalizer: eleven fields, no separators, state fourth. */
  function Canonical(p: Property): string {
    p.county + p.street + p.city + p.state + p.zip + p.saleDate + p.saleTime + p.continuedDateTime
    + p.openingBid + p.saleLocationCity + p.firmFileNumber
  }

  /** The identifier of a record: the lowercase hex of the SHA-256 digest of the UTF-8 bytes
      of its canonical concatenation. */
  function Id(sha: Sha256, p: Property): string {
    Hex(sha(Utf8(Canonical(p))))
  }

  /** An id is 64 lowercase hexadecimal digits, and two ids are equal exactly when the
      digests they render are. */
  lemma IdFormat(sha: Sha256, p: Property, q: Property)
    ensures |Id(sha, p)| == 64
    ensures forall k :: 0 <= k < 64 ==> Id(sha, p)[k] in HexDigits
    ensures Id(sha, p) == Id(sha, q) <==> sha(Utf8(Canonical(p))) == sha(Utf8(Canonical(q)))
  {
    HexDigitsOnly(sha(Utf8(Canonical(p))));
    HexRoundTrip(sha(Utf8(Canonical(p))));
    HexRoundTrip(sha(Utf8(Canonical(q))));
  }

  /** The rebuilt record of one input record: `Property::new()`, then `set` of the eleven
      fields from "0" to "10" and of the id under "11". */
  function Finalize(sha: Sha256, p: Property): Property {
    New()
      .Set("0", p.county).Set("1", p.street).Set("2", p.city).Set("3", p.zip)
      .Set("4", p.saleDate).Set("5", p.saleTime).Set("6", p.continuedDateTime).Set("7", p.openingBid)
      .Set("8", p.saleLocationCity).Set("9", p.firmFileNumber).Set("10", p.state)
      .Set("11", Hex(sha(Utf8(Canonical(p)))))
  }

  /** The first four setter calls of the rebuild write county, street, city and zip. */
  lemma SetAddress(q: Property, county: string, street: string, city: string, zip: string)
    ensures q.Set("0", county).Set("1", street).Set("2", city).Set("3", zip)
         == q.(county := county, street := street, city := city, zip := zip)
  {
  }

  /** The next four write the sale date, the sale time, the continuation and the opening bid. */
  lemma SetSale(q: Property, date: string, time: string, continued: string, bid: string)
    ensures q.Set("4", date).Set("5", time).Set("6", continued).Set("7", bid)
         == q.(saleDate := date, saleTime := time, continuedDateTime := continued, openingBid := bid)
  {
  }

  /** The last four write the sale location, the firm file number, the state and the id. */
  lemma SetTail(q: Property, location: string, file: string, state: string, id: string)
    ensures q.Set("8", location).Set("9", file).Set("10", state).Set("11", id)
         == q.(saleLocationCity := location, firmFileNumber := file, state := state, id := id)
  {
  }

  /** The rebuilt record is the input record with its id replaced by the content hash:
      every other field, the state included, is copied unchanged. */
  lemma FinalizeSetsId(sha: Sha256, p: Property)
    ensures Finalize(sha, p) == p.(id := Id(sha, p))
  {
    var q0 := New();
    SetAddress(q0, p.county, p.street, p.city, p.zip);
    var q1 := q0.(county := p.county, street := p.street, city := p.city, zip := p.zip);
    SetSale(q1, p.saleDate, p.saleTime, p.continuedDateTime, p.openingBid);
    var q2 := q1.(saleDate := p.saleDate, saleTime := p.saleTime, continuedDateTime := p.continuedDateTime,
                  openingBid := p.openingBid);
    SetTail(q2, p.saleLocationCity, p.firmFileNumber, p.state, Id(sha, p));
  }

  /** The finalizing map: one rebuilt record per input record, in the same order. */
  function FinalizeAll(sha: Sha256, ps: seq<Property>): (rs: seq<Property>)
    ensures |rs| == |ps|
    decreases |ps|
  {
    if ps == [] then [] else [Finalize(sha, ps[0])] + FinalizeAll(sha, ps[1..])
  }

  lemma FinalizeAllStep(sha: Sha256, ps: seq<Property>)
    requires ps != []
    ensures FinalizeAll(sha, ps)[0] == Finalize(sha, ps[0])
    ensures FinalizeAll(sha, ps)[1..] == FinalizeAll(sha, ps[1..])
  {
  }

  /** The map keeps the order and the count of the records, copies every field but the id,
      and gives each record the hash of its own content as id. */
  lemma {:induction false} FinalizeAllKeeps(sha: Sha256, ps: seq<Property>)
    ensures forall k :: 0 <= k < |ps| ==> FinalizeAll(sha, ps)[k] == ps[k].(id := Id(sha, ps[k]))
    decreases |ps|
  {
    if ps != [] {
      var rs, tail := FinalizeAll(sha, ps), FinalizeAll(sha, ps[1..]);
      FinalizeAllStep(sha, ps);
      FinalizeAllKeeps(sha, ps[1..]);
      forall k | 0 <= k < |ps|
        ensures rs[k] == ps[k].(id := Id(sha, ps[k]))
      {
        if k == 0 {
          FinalizeSetsId(sha, ps[0]);
        } else {
          assert rs[k] == tail[k - 1] && ps[k] == ps[1..][k - 1];
        }
      }
    }
  }

  /** Records that agree on their eleven content fields get the same rebuilt record, whatever
      id they held before: the id is a function of the content alone. */
  lemma FinalizeIgnoresOldId(sha: Sha256, p: Property, q: Property)
    requires p.Fields()[..11] == q.Fields()[..11]
    ensures Finalize(sha, p) == Finalize(sha, q)
  {
    var fp, fq := p.Fields()[..11], q.Fields()[..11];
    assert fp[0] == fq[0] && fp[1] == fq[1] && fp[2] == fq[2] && fp[3] == fq[3];
    assert fp[4] == fq[4] && fp[5] == fq[5] && fp[6] == fq[6] && fp[7] == fq[7];
    assert fp[8] == fq[8] && fp[9] == fq[9] && fp[10] == fq[10];
    assert p.(id := "") == q.(id := "");
    assert Canonical(p) == Canonical(q);
    FinalizeSetsId(sha, p);
    FinalizeSetsId(sha, q);
  }

  /** Finalizing a finalized record changes nothing. */
  lemma FinalizeIdempotent(sha: Sha256, p: Property)
    ensures Finalize(sha, Finalize(sha, p)) == Finalize(sha, p)
  {
    FinalizeSetsId(sha, p);
    FinalizeSetsId(sha, Finalize(sha, p));
    assert Canonical(Finalize(sha, p)) == Canonical(p);
  }

  /** Text of ASCII characters is hashed one byte per character, the byte being the
      character's code. */
  lemma {:induction false} Utf8Ascii(s: string)
    requires forall k :: 0 <= k < |s| ==> s[k] as int < 0x80
    ensures |Utf8(s)| == |s|
    ensures forall k :: 0 <= k < |s| ==> Utf8(s)[k] == s[k] as int as byte
    decreases |s|
  {
    if s != [] {
      Utf8Ascii(s[1..]);
      assert Utf8(s) == [s[0] as int as byte] + Utf8(s[1..]);
    }
  }

  /** The hashed text of a record with fields "A", "B", "C", "MO", "1" .. "7" is
      "ABCMO1234567": the state sits between the city and the zip, with no separators. */
  lemma HashInputExample()
    ensures Canonical(Property("", "MO", "A", "B", "C", "1", "2", "3", "4", "5", "6", "7")) == "ABCMO1234567"
  {
  }

  /** With no separator between fields, records that differ only in where the text of
      county and street is split between the two get the same id. */
  lemma SeparatorlessCollision(sha: Sha256, p: Property, q: Property)
    requires p.county + p.street == q.county + q.street
    requires p.(county := q.county, street := q.street) == q
    ensures Finalize(sha, p).id == Finalize(sha, q).id
  {
    assert Canonical(p) == Canonical(q);
    FinalizeSetsId(sha, p);
    FinalizeSetsId(sha, q);
  }

  /** County "A" with street "BC" and county "AB" with street "C" are different records
      with one id. */
  lemma CollisionExample(sha: Sha256)
    ensures var p := New().(state := "MO", county := "A", street := "BC");
      var q := New().(state := "MO", county := "AB", street := "C");
      p.Fields()[..11] != q.Fields()[..11] && Finalize(sha, p).id == Finalize(sha, q).id
  {
    var p := New().(state := "MO", county := "A", street := "BC");
    var q := New().(state := "MO", county := "AB", street := "C");
    assert p.Fields()[..11][0] != q.Fields()[..11][0];
    assert p.county + p.street == q.county + q.street;
    SeparatorlessCollision(sha, p, q);
  }
}
