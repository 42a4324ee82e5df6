/** MAC addresses as six bytes and as text. */
module MacText {
  import opened Packets

  type Byte = b: nat | b < 256

  type Bytes = bs: seq<Byte> | |bs| == 6 witness [0, 0, 0, 0, 0, 0]

  function HexDigit(v: nat): char
    requires v < 16
  {
    if v < 10 then '0' + v as char else 'a' + (v - 10) as char
  }

  function HexValue(c: char): Option<nat> {
    if '0' <= c <= '9' then Some(c as int - '0' as int)
    else if 'a' <= c <= 'f' then Some(10 + (c as int - 'a' as int))
    else if 'A' <= c <= 'F' then Some(10 + (c as int - 'A' as int))
    else None
  }

  function Lower(c: char): char {
    if 'A' <= c <= 'Z' then 'a' + (c as int - 'A' as int) as char else c
  }

  /** The text of an address: character k belongs to byte k / 3, or separates two bytes. */
  function TextChar(bs: Bytes, k: nat): char
    requires k < 17
  {
    if k % 3 == 0 then HexDigit(bs[k / 3] / 16)
    else if k % 3 == 1 then HexDigit(bs[k / 3] % 16)
    else ':'
  }

  function Text(bs: Bytes): string {
    seq(17, k requires 0 <= k < 17 => TextChar(bs, k))
  }

  /** `text` is six two-digit hexadecimal numbers separated by colons. */
  predicate WellFormed(text: string) {
    && |text| == 17
    && forall k :: 0 <= k < 17 ==> if k % 3 == 2 then text[k] == ':' else HexValue(text[k]).Some?
  }

  function ByteAt(text: string, i: nat): Byte
    requires WellFormed(text) && i < 6
  {
    HexBound(text[3 * i]);
    HexBound(text[3 * i + 1]);
    HexValue(text[3 * i]).value * 16 + HexValue(text[3 * i + 1]).value
  }

  function Parsed(text: string): Option<Bytes> {
    if WellFormed(text) then Some(seq(6, i requires 0 <= i < 6 => ByteAt(text, i))) else None
  }

  lemma HexBound(c: char)
    ensures HexValue(c).Some? ==> HexValue(c).value < 16
  {
  }

  method ToString(bs: Bytes) returns (s: string)
    ensures s == Text(bs)
  {
    s := [];
    var index := 0;
    while index < 6
      invariant 0 <= index <= 6
      invariant |s| == if index == 0 then 0 else 3 * index - 1
      invariant forall k :: 0 <= k < |s| ==> s[k] == TextChar(bs, k)
    {
      if index != 0 {
        s := s + ":";
      }
      s := s + [HexDigit(bs[index] / 16), HexDigit(bs[index] % 16)];
      index := index + 1;
    }
  }

  method FromString(text: string) returns (r: Option<Bytes>)
    ensures r == Parsed(text)
  {
    if |text| != 17 {
      return None;
    }
    var bytes: seq<Byte> := [];
    var index := 0;
    while index < 6
      invariant 0 <= index <= 6 && |bytes| == index
      invariant forall k :: 0 <= k < 3 * index && k < 17 ==> if k % 3 == 2 then text[k] == ':' else HexValue(text[k]).Some?
      invariant forall i :: 0 <= i < index ==>
                  HexValue(text[3 * i]).Some? && HexValue(text[3 * i + 1]).Some?
                  && bytes[i] == HexValue(text[3 * i]).value * 16 + HexValue(text[3 * i + 1]).value
    {
      var offset := index * 3;
      if index != 5 && text[offset + 2] != ':' {
        assert !WellFormed(text);
        return None;
      }
      var high, low := HexValue(text[offset]), HexValue(text[offset + 1]);
      if high.None? || low.None? {
        assert !WellFormed(text);
        return None;
      }
      HexBound(text[offset]);
      HexBound(text[offset + 1]);
      bytes := bytes + [high.value * 16 + low.value];
      index := index + 1;
    }
    assert WellFormed(text);
    assert Parsed(text).value == bytes;
    return Some(bytes);
  }

  lemma HexRoundTrip(v: nat)
    requires v < 16
    ensures HexValue(HexDigit(v)) == Some(v)
  {
  }

  lemma HexLower(c: char)
    requires HexValue(c).Some?
    ensures HexValue(c).value < 16 && HexDigit(HexValue(c).value) == Lower(c)
  {
  }

  /** Parsing the text of any address returns the address. */
  lemma TextRoundTrip(bs: Bytes)
    ensures Parsed(Text(bs)) == Some(bs)
  {
    var text := Text(bs);
    forall k | 0 <= k < 17 ensures if k % 3 == 2 then text[k] == ':' else HexValue(text[k]).Some? {
      HexRoundTrip(bs[k / 3] / 16);
      HexRoundTrip(bs[k / 3] % 16);
    }
    forall i | 0 <= i < 6 ensures ByteAt(text, i) == bs[i] {
      HexRoundTrip(bs[i] / 16);
      HexRoundTrip(bs[i] % 16);
    }
    assert Parsed(text).value == bs;
  }

  lemma ByteText(text: string, i: nat)
    requires WellFormed(text) && i < 6
    ensures HexDigit(ByteAt(text, i) / 16) == Lower(text[3 * i])
    ensures HexDigit(ByteAt(text, i) % 16) == Lower(text[3 * i + 1])
  {
    HexLower(text[3 * i]);
    HexLower(text[3 * i + 1]);
  }

  /** The text of a parsed address is the accepted string in lower case. */
  lemma ParsedTextIsLowerCase(text: string)
    requires Parsed(text).Some?
    ensures |Text(Parsed(text).value)| == |text|
    ensures forall k :: 0 <= k < |text| ==> Text(Parsed(text).value)[k] == Lower(text[k])
  {
    forall k | 0 <= k < |text| ensures Text(Parsed(text).value)[k] == Lower(text[k]) {
      ByteText(text, k / 3);
    }
  }

  /** The value of each hexadecimal digit: decimal digits, and letters in either case; every
      other character is refused. */
  lemma HexDigitValues(c: char)
    ensures HexValue(c).Some? <==> c in "0123456789abcdefABCDEF"
    ensures forall v :: 0 <= v < 16 ==>
              (HexValue(c) == Some(v) <==> c == "0123456789abcdef"[v] || c == "0123456789ABCDEF"[v])
  {
    HexAccepted(c);
    forall v | 0 <= v < 16
      ensures HexValue(c) == Some(v) <==> c == "0123456789abcdef"[v] || c == "0123456789ABCDEF"[v]
    {
      DigitAt(v);
    }
  }

  /** The v-th digit, in lower and in upper case. */
  lemma DigitAt(v: nat)
    requires v < 16
    ensures "0123456789abcdef"[v] == if v < 10 then '0' + v as char else 'a' + (v - 10) as char
    ensures "0123456789ABCDEF"[v] == if v < 10 then '0' + v as char else 'A' + (v - 10) as char
  {
  }

  lemma HexAccepted(c: char)
    ensures HexValue(c).Some? <==> c in "0123456789abcdefABCDEF"
  {
    var all := "0123456789abcdefABCDEF";
    if '0' <= c <= '9' {
      assert all[c as int - '0' as int] == c;
    } else if 'a' <= c <= 'f' {
      assert all[10 + (c as int - 'a' as int)] == c;
    } else if 'A' <= c <= 'F' {
      assert all[16 + (c as int - 'A' as int)] == c;
    }
  }

  /** The text is the address read from left to right: each byte is its first digit times
      sixteen plus its second, in the order of the bytes. */
  lemma TextReadsAsBytes(bs: Bytes, i: nat)
    requires i < 6
    ensures var text := Text(bs);
            && HexValue(text[3 * i]).Some? && HexValue(text[3 * i + 1]).Some?
            && bs[i] == 16 * HexValue(text[3 * i]).value + HexValue(text[3 * i + 1]).value
            && (i < 5 ==> text[3 * i + 2] == ':')
  {
    HexRoundTrip(bs[i] / 16);
    HexRoundTrip(bs[i] % 16);
  }

  // ---- Bytes and numbers ----

  /** The bytes read as one big-endian number. */
  function Number(bs: seq<Byte>): nat {
    if bs == [] then 0 else Number(bs[..|bs| - 1]) * 256 + bs[|bs| - 1]
  }

  /** The byte-wise order: the first difference decides. */
  ghost predicate BytesLess(a: seq<Byte>, b: seq<Byte>)
    requires |a| == |b|
  {
    exists k :: 0 <= k < |a| && a[..k] == b[..k] && a[k] < b[k]
  }

  lemma LessSnoc(a: seq<Byte>, b: seq<Byte>)
    requires |a| == |b| > 0
    ensures var n := |a| - 1;
            BytesLess(a, b) <==> BytesLess(a[..n], b[..n]) || (a[..n] == b[..n] && a[n] < b[n])
  {
    var n := |a| - 1;
    if BytesLess(a[..n], b[..n]) {
      var k :| 0 <= k < n && a[..n][..k] == b[..n][..k] && a[..n][k] < b[..n][k];
      assert a[..k] == a[..n][..k] && b[..k] == b[..n][..k];
    }
    if BytesLess(a, b) {
      var k :| 0 <= k < |a| && a[..k] == b[..k] && a[k] < b[k];
      if k < n {
        assert a[..n][..k] == a[..k] && b[..n][..k] == b[..k];
      }
    }
  }

  /** Comparing addresses byte by byte is comparing their numbers. */
  lemma {:induction false} ByteOrderIsNumericOrder(a: seq<Byte>, b: seq<Byte>)
    requires |a| == |b|
    ensures BytesLess(a, b) <==> Number(a) < Number(b)
    ensures a == b <==> Number(a) == Number(b)
  {
    if a == [] {
    } else {
      var n := |a| - 1;
      ByteOrderIsNumericOrder(a[..n], b[..n]);
      LessSnoc(a, b);
      assert a == a[..n] + [a[n]] && b == b[..n] + [b[n]];
    }
  }

  /** The broadcast test of the source, byte by byte. */
  method IsBroadcast(bs: Bytes) returns (broadcast: bool)
    ensures broadcast <==> Number(bs) == BROADCAST
  {
    var all: Bytes := [0xFF, 0xFF, 0xFF, 0xFF, 0xFF, 0xFF];
    BroadcastNumber(all);
    ByteOrderIsNumericOrder(bs, all);
    var k := 0;
    while k < 6
      invariant 0 <= k <= 6 && forall j :: 0 <= j < k ==> bs[j] == 0xFF
    {
      if bs[k] != 0xFF {
        assert bs != all;
        return false;
      }
      k := k + 1;
    }
    assert bs == all;
    return true;
  }

  lemma BroadcastNumber(bs: Bytes)
    requires bs == [0xFF, 0xFF, 0xFF, 0xFF, 0xFF, 0xFF]
    ensures Number(bs) == BROADCAST
  {
    assert bs[..0] == [];
    assert bs[..1][..0] == bs[..0] && bs[..2][..1] == bs[..1] && bs[..3][..2] == bs[..2];
    assert bs[..4][..3] == bs[..3] && bs[..5][..4] == bs[..4];
    assert Number(bs[..1]) == 0xFF;
    assert Number(bs[..2]) == 0xFFFF;
    assert Number(bs[..3]) == 0xFF_FFFF;
    assert Number(bs[..4]) == 0xFFFF_FFFF;
    assert Number(bs[..5]) == 0xFF_FFFF_FFFF;
  }
}
