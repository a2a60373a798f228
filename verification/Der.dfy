/**
 The DER reader: one element at a time, of a one-byte tag and a length below 2^32,
 which has one encoding only (section 10.1 of ITU-T X.690).
 It is proved the inverse of DER writing.
 */
module Der {
  import opened Common

  type Bytes = seq<byte>

  const LIMIT: nat := 0x1_0000_0000

  // ------------------------------------------------------------------- writing

  /** A number above 0 in base 256, the most significant byte first. */
  function BigEndian(n: nat): (s: Bytes)
    requires n > 0
    ensures s != [] && s[0] != 0
  {
    if n < 0x100 then [n] else BigEndian(n / 0x100) + [n % 0x100]
  }

  function ValueOf(s: Bytes): nat {
    if s == [] then 0 else ValueOf(s[..|s| - 1]) * 0x100 + s[|s| - 1]
  }

  /** The shortest form of a length below `LIMIT`. */
  function LengthBytes(n: nat): Bytes
    requires n < LIMIT
  {
    if n < 0x80 then [n] else SizeIsSmall(n); [0x80 + |BigEndian(n)|] + BigEndian(n)
  }

  predicate IsTag(tag: byte) {
    tag % 32 != 31
  }

  predicate IsElement(tag: byte, value: Bytes) {
    IsTag(tag) && |value| < LIMIT
  }

  function Element(tag: byte, value: Bytes): Bytes
    requires IsElement(tag, value)
  {
    [tag] + LengthBytes(|value|) + value
  }

  // ------------------------------------------------------------------- reading

  datatype Read = Read(tag: byte, value: Bytes, rest: Bytes)

  /** The length's bytes, and what follows them: short, or long and shortest. */
  function ReadLength(s: Bytes): Option<(nat, Bytes)> {
    if s == [] then None
    else if s[0] < 0x80 then Some((s[0], s[1..]))
    else
      var count := s[0] - 0x80;
      if count == 0 || count > 4 || |s| - 1 < count then None
      else
        var bytes := s[1..1 + count];
        if bytes[0] == 0 || ValueOf(bytes) < 0x80 then None
        else Some((ValueOf(bytes), s[1 + count..]))
  }

  function ReadElement(s: Bytes): (r: Option<Read>)
    ensures r.Some? ==> |r.value.rest| < |s| && |r.value.value| < |s|
  {
    if s == [] || !IsTag(s[0]) then None
    else
      var length := ReadLength(s[1..]);
      if length.None? || |length.value.1| < length.value.0 then None
      else Some(Read(s[0], length.value.1[..length.value.0], length.value.1[length.value.0..]))
  }

  // ------------------------------------------------------------------- lengths

  lemma {:induction false} BigEndianValue(n: nat)
    requires n > 0
    ensures ValueOf(BigEndian(n)) == n
  {
    var s := BigEndian(n);
    if n < 0x100 {
      assert s[..0] == [];
    } else {
      BigEndianValue(n / 0x100);
      assert s[..|s| - 1] == BigEndian(n / 0x100);
    }
  }

  lemma {:induction false} ValueIsPositive(s: Bytes)
    requires s != [] && s[0] != 0
    ensures ValueOf(s) > 0
  {
    if |s| > 1 {
      ValueIsPositive(s[..|s| - 1]);
    }
  }

  /** Without a leading zero, the bytes are those of their value. */
  lemma {:induction false} ValueBigEndian(s: Bytes)
    requires s != [] && s[0] != 0
    ensures ValueOf(s) > 0 && BigEndian(ValueOf(s)) == s
  {
    var n := |s| - 1;
    assert s == s[..n] + [s[n]];
    if n > 0 {
      ValueIsPositive(s[..n]);
      ValueBigEndian(s[..n]);
      assert ValueOf(s) / 0x100 == ValueOf(s[..n]) && ValueOf(s) % 0x100 == s[n];
    } else {
      assert s[..0] == [] && ValueOf(s[..0]) == 0;
    }
  }

  function Power256(k: nat): nat {
    if k == 0 then 1 else 0x100 * Power256(k - 1)
  }

  /** `k` bytes without a leading zero are the numbers from 256^(k-1) to 256^k. */
  lemma {:induction false} SizeOfValue(s: Bytes)
    requires s != [] && s[0] != 0
    ensures Power256(|s| - 1) <= ValueOf(s) < Power256(|s|)
  {
    var n := |s| - 1;
    if n > 0 {
      SizeOfValue(s[..n]);
    } else {
      assert ValueOf(s[..0]) == 0;
    }
  }

  lemma {:induction false} PowersGrow(j: nat, k: nat)
    requires j <= k
    ensures Power256(j) <= Power256(k)
    decreases k
  {
    if j < k {
      PowersGrow(j, k - 1);
    }
  }

  lemma FourBytes()
    ensures Power256(4) == LIMIT
  {
    assert Power256(1) == 0x100 && Power256(2) == 0x1_0000 && Power256(3) == 0x100_0000;
  }

  lemma SizeIsSmall(n: nat)
    requires 0 < n < LIMIT
    ensures |BigEndian(n)| <= 4
  {
    BigEndianValue(n);
    SizeOfValue(BigEndian(n));
    FourBytes();
    if |BigEndian(n)| > 4 {
      PowersGrow(4, |BigEndian(n)| - 1);
    }
  }

  lemma FourBytesFit(s: Bytes)
    requires s != [] && s[0] != 0 && |s| <= 4
    ensures ValueOf(s) < LIMIT
  {
    SizeOfValue(s);
    FourBytes();
    PowersGrow(|s|, 4);
  }

  // ------------------------------------------------------- reading undoes writing

  lemma LengthReadsBack(n: nat, rest: Bytes)
    requires n < LIMIT
    ensures ReadLength(LengthBytes(n) + rest) == Some((n, rest))
  {
    var s := LengthBytes(n) + rest;
    if n < 0x80 {
      assert s[1..] == rest;
    } else {
      SizeIsSmall(n);
      BigEndianValue(n);
      var count := |BigEndian(n)|;
      assert s[0] == 0x80 + count;
      assert s[1..1 + count] == BigEndian(n);
      assert s[1 + count..] == rest;
    }
  }

  lemma LengthIsShortest(s: Bytes)
    requires ReadLength(s).Some?
    ensures var (n, rest) := ReadLength(s).value; n < LIMIT && s == LengthBytes(n) + rest
  {
    if s[0] < 0x80 {
      assert s == [s[0]] + s[1..];
    } else {
      var count := s[0] - 0x80;
      var bytes := s[1..1 + count];
      ValueBigEndian(bytes);
      FourBytesFit(bytes);
      assert s == [s[0]] + bytes + s[1 + count..];
    }
  }

  /** The reader recovers every element and the rest from its encoding. */
  lemma ElementReadsBack(tag: byte, value: Bytes, rest: Bytes)
    requires IsElement(tag, value)
    ensures ReadElement(Element(tag, value) + rest) == Some(Read(tag, value, rest))
  {
    var s := Element(tag, value) + rest;
    LengthReadsBack(|value|, value + rest);
    assert s[1..] == LengthBytes(|value|) + (value + rest);
    assert (value + rest)[..|value|] == value && (value + rest)[|value|..] == rest;
  }

  /** And whatever it accepts, the bytes it consumed are that encoding: there is no
      other. */
  lemma AcceptedIsElement(s: Bytes)
    requires ReadElement(s).Some?
    ensures var r := ReadElement(s).value;
            IsElement(r.tag, r.value) && s == Element(r.tag, r.value) + r.rest
  {
    LengthIsShortest(s[1..]);
    var (n, rest) := ReadLength(s[1..]).value;
    var r := ReadElement(s).value;
    assert s == [s[0]] + s[1..];
    assert rest == r.value + r.rest;
    Assoc([r.tag] + LengthBytes(n), r.value, r.rest);
    Assoc([r.tag], LengthBytes(n), rest);
  }

  /** No way to write a length is shorter: any bytes of its value are at least as many. */
  lemma NoLengthIsShorter(n: nat, s: Bytes)
    requires 0x80 <= n < LIMIT && ValueOf(s) == n
    ensures |BigEndian(n)| <= |s|
  {
    BigEndianValue(n);
    SizeOfValue(BigEndian(n));
    ValueFits(s);
    var most := |BigEndian(n)| - 1;
    PowersGrow(if |s| < most then |s| else most, most);
  }

  lemma {:induction false} ValueFits(s: Bytes)
    ensures ValueOf(s) < Power256(|s|)
  {
    if s != [] {
      ValueFits(s[..|s| - 1]);
    }
  }

  // -------------------------------------------------------------------- the cursor

  class Reader {
    var rest: Bytes

    constructor (bytes: Bytes)
      ensures rest == bytes
    {
      rest := bytes;
    }

    /** One element; a refusal leaves the cursor where it was. */
    method Next() returns (r: Option<(byte, Bytes)>)
      modifies this
      ensures match ReadElement(old(rest))
              case Some(read) => r == Some((read.tag, read.value)) && rest == read.rest
              case None => r.None? && rest == old(rest)
    {
      if |rest| < 2 || rest[0] % 32 == 31 { return None; }
      var tag, first := rest[0], rest[1];
      var after := rest[2..];
      var length: nat;
      if first < 0x80 {
        length := first;
      } else {
        var count := first - 0x80;
        if count == 0 || count > 4 || |after| < count { return None; }
        var bytes := after[..count];
        after := after[count..];
        length := 0;
        for i := 0 to count
          invariant length == ValueOf(bytes[..i])
        {
          assert bytes[..i + 1][..i] == bytes[..i];
          length := length * 0x100 + bytes[i];
        }
        assert bytes[..count] == bytes;
        assert rest[1..][1..1 + count] == bytes;
        if bytes[0] == 0 || length < 0x80 { return None; }
      }
      if |after| < length { return None; }
      assert ReadLength(rest[1..]) == Some((length, after));
      r := Some((tag, after[..length]));
      rest := after[length..];
    }

    /** One element of that tag. */
    method Expect(tag: byte) returns (r: Option<Bytes>)
      modifies this
      ensures r == Expected(old(rest), tag).0 && (r.Some? ==> rest == Expected(old(rest), tag).1)
    {
      var next := Next();
      if next.None? || next.value.0 != tag { return None; }
      return Some(next.value.1);
    }
  }

  /** The value of an element of that tag, and what follows. */
  function Expected(s: Bytes, tag: byte): (Option<Bytes>, Bytes) {
    match ReadElement(s)
    case Some(read) => if read.tag == tag then (Some(read.value), read.rest) else (None, s)
    case None => (None, s)
  }
}
