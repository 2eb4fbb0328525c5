/** Fixed-length text fields and IP-address strings of the 930 device file
    (the string helpers at the end of dpetk/parse.go).

    A Go string is a byte sequence; the trimming functions work on bytes and
    `AsString` turns the kept bytes into characters one for one. */
module DpetkText {
  import opened Errors
  import opened LittleEndian

  const Space: UInt8 := 0x20

  /** A byte that `modifyString` strips from the end of a field. */
  predicate IsPad(b: UInt8) {
    b == 0 || b == Space
  }

  function AsString(bs: Bytes): (r: string)
    ensures |r| == |bs|
    ensures forall i :: 0 <= i < |bs| ==> r[i] as int == bs[i]
  {
    seq(|bs|, i requires 0 <= i < |bs| => bs[i] as char)
  }

  // ---------------------------------------------------------------------
  // modifyString: strip trailing zero and space bytes.

  /** Reference definition: the longest prefix that does not end in a pad byte. */
  function TrimPadRight(bs: Bytes): (r: Bytes)
    ensures |r| <= |bs| && r == bs[..|r|]
    ensures |r| == 0 || !IsPad(r[|r| - 1])
    ensures forall k :: |r| <= k < |bs| ==> IsPad(bs[k])
  {
    if |bs| == 0 || !IsPad(bs[|bs| - 1]) then bs else TrimPadRight(bs[..|bs| - 1])
  }

  /** The backward scan of `modifyString`. */
  method ModifyString(bs: Bytes) returns (r: Bytes)
    ensures |r| <= |bs| && r == bs[..|r|]
    ensures |r| == 0 || !IsPad(r[|r| - 1])
    ensures forall k :: |r| <= k < |bs| ==> IsPad(bs[k])
    ensures r == TrimPadRight(bs)
  {
    var i := |bs| - 1;
    assert bs[..i + 1] == bs;
    while i >= 0
      invariant -1 <= i < |bs|
      invariant forall k :: i < k < |bs| ==> IsPad(bs[k])
      invariant TrimPadRight(bs) == TrimPadRight(bs[..i + 1])
    {
      if !IsPad(bs[i]) {
        break;
      }
      assert bs[..i + 1][..i] == bs[..i];
      i := i - 1;
    }
    r := bs[..i + 1];
  }

  /** Trimming twice is trimming once. */
  lemma TrimPadRightIdempotent(bs: Bytes)
    ensures TrimPadRight(TrimPadRight(bs)) == TrimPadRight(bs)
  {
  }

  // ---------------------------------------------------------------------
  // modifyStringByFirstBlank, as written and as evidently intended.

  /** The forward scan: index of the first zero byte, or `|bs|` if none. */
  function ZeroIndex(bs: Bytes): (i: nat)
    ensures i <= |bs|
    ensures forall k :: 0 <= k < i ==> bs[k] != 0
    ensures i < |bs| ==> bs[i] == 0
  {
    if |bs| == 0 || bs[0] == 0 then 0 else 1 + ZeroIndex(bs[1..])
  }

  /** The first zero byte is where `ZeroIndex` says; `|bs|` when there is none. */
  lemma ZeroIndexIs(bs: Bytes, i: nat)
    requires i <= |bs|
    requires forall k :: 0 <= k < i ==> bs[k] != 0
    requires i < |bs| ==> bs[i] == 0
    ensures ZeroIndex(bs) == i
  {
  }

  /** The backward scan as written: it starts ON index `i`, which fails when
      `i == |bs|` (no zero byte was found), and stops at the first byte that
      is not a space. */
  function ScanBackOverSpaces(bs: Bytes, i: int): (r: Result<int>)
    requires i <= |bs|
    decreases i + 1
  {
    if i < 0 then Ok(i)
    else if i == |bs| then Err(IndexOutOfRange)
    else if bs[i] != Space then Ok(i)
    else ScanBackOverSpaces(bs, i - 1)
  }

  /** `modifyStringByFirstBlank` as written: both scans, then `bs[:i]`. */
  function ModifyStringByFirstBlank(bs: Bytes): (r: Result<Bytes>)
    ensures r.Ok? <==> 0 in bs
    ensures r.Err? ==> r.error == IndexOutOfRange
    ensures r.Ok? ==> |r.value| < |bs| && r.value + [0] == bs[..|r.value| + 1] && 0 !in r.value
  {
    var i :- ScanBackOverSpaces(bs, ZeroIndex(bs));
    if i < 0 then Err(IndexOutOfRange) else Ok(bs[..i])
  }

  /** "ABCD" followed by twelve spaces: a full 16-byte field without a zero. */
  const AbcdPadded: Bytes := [0x41, 0x42, 0x43, 0x44, 0x20, 0x20, 0x20, 0x20, 0x20, 0x20, 0x20, 0x20, 0x20, 0x20, 0x20, 0x20]

  /** "PET" followed by thirteen zero bytes. */
  const PetPadded: Bytes := [0x50, 0x45, 0x54, 0, 0, 0, 0, 0, 0, 0, 0, 0, 0, 0, 0, 0]

  /** With no zero byte the scan reads one past the end: the Go code panics
      on a full-width field such as "ABCD" followed by twelve spaces. */
  lemma FirstBlankFailsWithoutZero()
    ensures ModifyStringByFirstBlank(AbcdPadded) == Err(IndexOutOfRange)
  {
    assert 0 !in AbcdPadded;
  }

  /** Spaces before the zero byte are kept: "AB \0" gives "AB ". */
  lemma FirstBlankKeepsSpaces()
    ensures ModifyStringByFirstBlank([0x41, 0x42, Space, 0]) == Ok([0x41, 0x42, Space])
  {
    var bs: Bytes := [0x41, 0x42, Space, 0];
    ZeroIndexIs(bs, 3);
    assert ScanBackOverSpaces(bs, 3) == Ok(3);
    assert bs[..3] == [0x41, 0x42, Space];
  }

  /** Strip trailing spaces (only spaces). */
  function TrimSpacesRight(bs: Bytes): (r: Bytes)
    ensures |r| <= |bs| && r == bs[..|r|]
    ensures |r| == 0 || r[|r| - 1] != Space
    ensures forall k :: |r| <= k < |bs| ==> bs[k] == Space
  {
    if |bs| == 0 || bs[|bs| - 1] != Space then bs else TrimSpacesRight(bs[..|bs| - 1])
  }

  /** The text policy evidently intended: the region before the first zero
      byte (the whole field when there is none), without its trailing spaces. */
  function TrimText(bs: Bytes): (r: Bytes)
    ensures |r| <= |bs| && r == bs[..|r|] && 0 !in r
    ensures |r| == 0 || r[|r| - 1] != Space
    ensures forall k :: |r| <= k < ZeroIndex(bs) ==> bs[k] == Space
  {
    TrimSpacesRight(bs[..ZeroIndex(bs)])
  }

  /** Where the as-written function does not fail and no space precedes the
      first zero byte, it agrees with the corrected one. */
  lemma TrimTextAgreesWithFirstBlank(bs: Bytes)
    requires 0 in bs
    requires ZeroIndex(bs) == 0 || bs[ZeroIndex(bs) - 1] != Space
    ensures ModifyStringByFirstBlank(bs) == Ok(TrimText(bs))
  {
    var r := ModifyStringByFirstBlank(bs).value;
    var z := ZeroIndex(bs);
    assert bs[z] == 0;
    assert |r| == z;
  }

  lemma {:induction false} TrimSpacesRightPadded(p: Bytes, n: nat)
    ensures TrimSpacesRight(p + seq(n, _ => Space)) == TrimSpacesRight(p)
  {
    var q := p + seq(n, _ => Space);
    if n == 0 {
      assert q == p;
    } else {
      assert q[..|q| - 1] == p + seq(n - 1, _ => Space);
      assert q[|q| - 1] == Space;
      TrimSpacesRightPadded(p, n - 1);
    }
  }

  /** Text followed by zero padding decodes to the text ("PET" and thirteen
      zero bytes give "PET"). */
  lemma TrimTextZeroPadded(p: Bytes, n: nat)
    requires 0 !in p && (|p| == 0 || p[|p| - 1] != Space)
    requires 0 < n
    ensures TrimText(p + seq(n, _ => 0)) == p
  {
    var q := p + seq(n, _ => 0);
    ZeroIndexIs(q, |p|);
    assert q[..|p|] == p;
  }

  /** A full-width field with no zero byte loses only its trailing spaces
      ("ABCD" and twelve spaces give "ABCD"). */
  lemma TrimTextSpacePadded(p: Bytes, n: nat)
    requires 0 !in p && (|p| == 0 || p[|p| - 1] != Space)
    ensures TrimText(p + seq(n, _ => Space)) == p
  {
    var q := p + seq(n, _ => Space);
    ZeroIndexIs(q, |q|);
    assert q[..|q|] == q;
    TrimSpacesRightPadded(p, n);
  }

  lemma TrimTextPetExample()
    ensures TrimText(PetPadded) == [0x50, 0x45, 0x54]
  {
    TrimTextZeroPadded([0x50, 0x45, 0x54], 13);
    assert PetPadded == [0x50, 0x45, 0x54] + seq(13, _ => 0);
  }

  /** The field on which the as-written function panics. */
  lemma TrimTextAbcdExample()
    ensures TrimText(AbcdPadded) == [0x41, 0x42, 0x43, 0x44]
  {
    TrimTextSpacePadded([0x41, 0x42, 0x43, 0x44], 12);
    assert AbcdPadded == [0x41, 0x42, 0x43, 0x44] + seq(12, _ => Space);
  }

  // ---------------------------------------------------------------------
  // nextString: how a fixed-width field becomes text.

  /** The text policy of a parser: `Verbatim` is `string(res)` (the
      parser's `modifyStr` switched off), `FirstBlank` is
      `modifyStringByFirstBlank` (what the package's `Parse` switches on),
      `Trimmed` is the corrected policy. */
  datatype TextPolicy = Verbatim | FirstBlank | Trimmed

  /** The text `nextString` returns for a field it has read in full; only
      `FirstBlank` can panic, on a field without a zero byte. */
  function DecodeText(policy: TextPolicy, bs: Bytes): (r: Result<string>)
    ensures r.Ok? <==> (policy == FirstBlank ==> 0 in bs)
    ensures r.Err? ==> r.error == IndexOutOfRange
    ensures r.Ok? ==> |r.value| <= |bs| && forall i :: 0 <= i < |r.value| ==> r.value[i] as int == bs[i]
    ensures r.Ok? && policy == Verbatim ==> |r.value| == |bs|
    ensures r.Ok? && policy != Verbatim ==> forall i :: 0 <= i < |r.value| ==> bs[i] != 0
    ensures r.Ok? && policy == FirstBlank ==> |r.value| == ZeroIndex(bs) && |r.value| < |bs| && bs[|r.value|] == 0
    ensures r.Ok? && policy == Trimmed ==> |r.value| == |TrimText(bs)|
  {
    match policy
    case Verbatim => Ok(AsString(bs))
    case FirstBlank =>
      var kept :- ModifyStringByFirstBlank(bs);
      Ok(AsString(kept))
    case Trimmed => Ok(AsString(TrimText(bs)))
  }

  /** Where the package's policy does not panic and no space precedes the
      first zero byte, it gives the same text as the corrected one. */
  lemma DecodeTextAgrees(bs: Bytes)
    requires 0 in bs
    requires ZeroIndex(bs) == 0 || bs[ZeroIndex(bs) - 1] != Space
    ensures DecodeText(FirstBlank, bs) == DecodeText(Trimmed, bs)
  {
    TrimTextAgreesWithFirstBlank(bs);
  }

  // ---------------------------------------------------------------------
  // toIPStr and the decimal rendering of strconv.Itoa.

  const IPPrefix: string := "192.168."

  predicate IsDigit(c: char) {
    '0' <= c <= '9'
  }

  function DigitChar(d: nat): (c: char)
    requires d < 10
    ensures IsDigit(c)
  {
    ('0' as int + d) as char
  }

  /** `strconv.Itoa` on a non-negative value. */
  function DecimalString(n: nat): (r: string)
    ensures 1 <= |r|
    ensures forall i :: 0 <= i < |r| ==> IsDigit(r[i])
    ensures 1 < |r| ==> r[0] != '0'
    ensures n < 10 ==> |r| == 1
    ensures n < 100 ==> |r| <= 2
    ensures n < 1000 ==> |r| <= 3
    decreases n
  {
    if n < 10 then [DigitChar(n)] else DecimalString(n / 10) + [DigitChar(n % 10)]
  }

  predicate AllDigits(s: string) {
    forall i :: 0 <= i < |s| ==> IsDigit(s[i])
  }

  /** Reference inverse of `DecimalString`. */
  function ParseDecimal(s: string): nat
    requires AllDigits(s)
  {
    if |s| == 0 then 0 else 10 * ParseDecimal(s[..|s| - 1]) + (s[|s| - 1] as int - '0' as int)
  }

  lemma {:induction false} ParseDecimalOfDecimalString(n: nat)
    ensures ParseDecimal(DecimalString(n)) == n
    decreases n
  {
    if n >= 10 {
      var s := DecimalString(n);
      assert s[..|s| - 1] == DecimalString(n / 10);
      ParseDecimalOfDecimalString(n / 10);
    }
  }

  /** `toIPStr`: the prefix, the high byte, a dot and the low byte. */
  function ToIPStr(ip: UInt16): (r: string)
    ensures |IPPrefix| + 3 <= |r| <= |IPPrefix| + 7
    ensures r[..|IPPrefix|] == IPPrefix
  {
    IPPrefix + DecimalString(ip / 256) + "." + DecimalString(ip % 256)
  }

  /** Index of the first '.', or `|s|` if there is none. */
  function DotIndex(s: string): (k: nat)
    ensures k <= |s|
  {
    if |s| == 0 || s[0] == '.' then 0 else 1 + DotIndex(s[1..])
  }

  lemma {:induction false} DotIndexAfterDigits(a: string, b: string)
    requires AllDigits(a)
    ensures DotIndex(a + "." + b) == |a|
    decreases |a|
  {
    if |a| > 0 {
      assert (a + "." + b)[1..] == a[1..] + "." + b;
      DotIndexAfterDigits(a[1..], b);
    }
  }

  /** Reference inverse of `ToIPStr`: accepts "192.168.<h>.<l>" with decimal
      octets below 256. */
  function ParseIPStr(s: string): Option<UInt16> {
    if |s| < |IPPrefix| || s[..|IPPrefix|] != IPPrefix then None
    else ParseOctets(s[|IPPrefix|..])
  }

  /** "<h>.<l>" with decimal octets below 256, as the 16-bit value. */
  function ParseOctets(t: string): Option<UInt16> {
    var k := DotIndex(t);
    if k == |t| then None
    else
      var hi, lo := t[..k], t[k + 1..];
      if !AllDigits(hi) || !AllDigits(lo) then None
      else
        var h, l := ParseDecimal(hi), ParseDecimal(lo);
        if h < 256 && l < 256 then Some(h * 256 + l) else None
  }

  lemma ParseIPStrOfToIPStr(ip: UInt16)
    ensures ParseIPStr(ToIPStr(ip)) == Some(ip)
  {
    var hs, ls := DecimalString(ip / 256), DecimalString(ip % 256);
    var s := ToIPStr(ip);
    assert s[|IPPrefix|..] == hs + "." + ls;
    ParseDecimalOfDecimalString(ip / 256);
    ParseDecimalOfDecimalString(ip % 256);
    ParseOctetsOfParts(hs, ls, ip / 256, ip % 256);
    assert ip / 256 * 256 + ip % 256 == ip;
  }

  /** Two decimal octets around a dot parse back to them. */
  lemma ParseOctetsOfParts(hs: string, ls: string, h: nat, l: nat)
    requires AllDigits(hs) && AllDigits(ls) && h < 256 && l < 256
    requires ParseDecimal(hs) == h && ParseDecimal(ls) == l
    ensures ParseOctets(hs + "." + ls) == Some(h * 256 + l)
  {
    var t := hs + "." + ls;
    DotIndexAfterDigits(hs, ls);
    SplitAtDot(hs, ls);
    assert DotIndex(t) == |hs| < |t|;
    assert ParseDecimal(t[..|hs|]) == h && ParseDecimal(t[|hs| + 1..]) == l;
    assert 0 <= h * 256 + l < 0x1_0000;
  }

  lemma SplitAtDot(hs: string, ls: string)
    ensures (hs + "." + ls)[..|hs|] == hs && (hs + "." + ls)[|hs| + 1..] == ls
  {
    var t := hs + "." + ls;
    assert t[..|hs|] == hs;
    assert t[|hs| + 1..] == ls;
  }

  /** Distinct 16-bit values give distinct address strings. */
  lemma ToIPStrInjective(a: UInt16, b: UInt16)
    ensures ToIPStr(a) == ToIPStr(b) ==> a == b
  {
    ParseIPStrOfToIPStr(a);
    ParseIPStrOfToIPStr(b);
  }

  lemma ToIPStrExample()
    ensures ToIPStr(0x0105) == "192.168.1.5"
  {
  }
}
