/**
 The two readings of a release version: the compile-time byte scanner and the build
 script's splitter. Both are proved against the grammar: three numbers without
 leading zeros, joined by dots.
 */
module ReleaseVersion {
  import opened Common

  type Text = seq<byte>

  const DOT: byte := 0x2E
  const ZERO: byte := 0x30
  const NINE: byte := 0x39

  predicate IsDigit(b: byte) {
    ZERO <= b <= NINE
  }

  predicate AllDigits(s: Text) {
    forall i | 0 <= i < |s| :: IsDigit(s[i])
  }

  /** `0`, or digits without a leading zero. */
  predicate IsNumber(s: Text) {
    s != [] && AllDigits(s) && (s[0] == ZERO ==> |s| == 1)
  }

  function Joined(x: Text, y: Text, z: Text): Text {
    x + [DOT] + y + [DOT] + z
  }

  /** The grammar. */
  ghost predicate IsVersion(s: Text) {
    exists x, y, z :: IsNumber(x) && IsNumber(y) && IsNumber(z) && s == Joined(x, y, z)
  }

  // ---------------------------------------------------------------- the parts

  /** The parts a dot has ended. */
  function Ended(s: Text): seq<Text> {
    if s == [] then []
    else if s[|s| - 1] == DOT then Ended(s[..|s| - 1]) + [Last(s[..|s| - 1])]
    else Ended(s[..|s| - 1])
  }

  /** The part after the last dot. */
  function Last(s: Text): Text {
    if s == [] || s[|s| - 1] == DOT then [] else Last(s[..|s| - 1]) + [s[|s| - 1]]
  }

  function Parts(s: Text): seq<Text> {
    Ended(s) + [Last(s)]
  }

  predicate IsDotless(s: Text) {
    DOT !in s
  }

  lemma {:induction false} AddDotless(s: Text, t: Text)
    requires IsDotless(t)
    ensures Ended(s + t) == Ended(s) && Last(s + t) == Last(s) + t
  {
    if t == [] {
      Empty(s);
      Empty(Last(s));
    } else {
      var n := |t| - 1;
      AddDotless(s, t[..n]);
      assert (s + t)[..|s| + n] == s + t[..n];
      assert t == t[..n] + [t[n]];
      Assoc(Last(s), t[..n], [t[n]]);
    }
  }

  lemma AddDot(s: Text)
    ensures Ended(s + [DOT]) == Ended(s) + [Last(s)] && Last(s + [DOT]) == []
  {
    assert (s + [DOT])[..|s|] == s;
  }

  /** Three dotless texts joined by dots come apart again. */
  lemma PartsOfJoined(x: Text, y: Text, z: Text)
    requires IsDotless(x) && IsDotless(y) && IsDotless(z)
    ensures Parts(Joined(x, y, z)) == [x, y, z]
  {
    Empty(x);
    Empty(y);
    Empty(z);
    AddDotless([], x);
    AddDot(x);
    AddDotless(x + [DOT], y);
    AddDot(x + [DOT] + y);
    AddDotless(x + [DOT] + y + [DOT], z);
  }

  function JoinedParts(ended: seq<Text>): Text {
    if ended == [] then [] else JoinedParts(ended[..|ended| - 1]) + ended[|ended| - 1] + [DOT]
  }

  lemma {:induction false} PartsAreTheText(s: Text)
    ensures JoinedParts(Ended(s)) + Last(s) == s
  {
    if s != [] {
      var n := |s| - 1;
      PartsAreTheText(s[..n]);
      assert s == s[..n] + [s[n]];
      if s[n] == DOT {
        assert Ended(s)[..|Ended(s)| - 1] == Ended(s[..n]);
      } else {
        Assoc(JoinedParts(Ended(s)), Last(s[..n]), [s[n]]);
      }
    }
  }

  predicate AreNumbers(parts: seq<Text>) {
    forall i | 0 <= i < |parts| :: IsNumber(parts[i])
  }

  /** The grammar, read from the parts: exactly three, each a number. */
  lemma VersionIsThreeNumbers(s: Text)
    ensures IsVersion(s) <==> |Parts(s)| == 3 && AreNumbers(Parts(s))
    ensures |Parts(s)| == 3 ==> s == Joined(Parts(s)[0], Parts(s)[1], Parts(s)[2])
  {
    if |Parts(s)| == 3 {
      PartsAreTheText(s);
      var x, y, z := Parts(s)[0], Parts(s)[1], Parts(s)[2];
      assert Ended(s) == [x, y];
      var one: seq<Text> := [x];
      assert Ended(s)[..1] == one && one[..0] == [];
      assert JoinedParts(one) == [] + x + [DOT];
      assert JoinedParts(Ended(s)) == x + [DOT] + y + [DOT];
      assert s == Joined(x, y, z);
    }
    if IsVersion(s) {
      var x, y, z :| IsNumber(x) && IsNumber(y) && IsNumber(z) && s == Joined(x, y, z);
      PartsOfJoined(x, y, z);
    }
  }

  // -------------------------------------------------------------- the readings

  /** The splitter's reading: three parts and no fourth, each a number. */
  function ReleaseComponents(s: Text): (r: Option<(Text, Text, Text)>)
    ensures r.Some? <==> IsVersion(s)
    ensures r.Some? ==> s == Joined(r.value.0, r.value.1, r.value.2)
    ensures r.Some? ==> IsNumber(r.value.0) && IsNumber(r.value.1) && IsNumber(r.value.2)
  {
    VersionIsThreeNumbers(s);
    var parts := Parts(s);
    if |parts| == 3 && AreNumbers(parts) then
      Some((parts[0], parts[1], parts[2]))
    else None
  }

  /** What the scanner knows of the text so far: every part ended is a number, and
      the last may still become one. */
  predicate IsScanned(s: Text, dots: nat, digits: nat, leadingZero: bool) {
    && |Ended(s)| == dots <= 2 && AreNumbers(Ended(s))
    && |Last(s)| == digits && AllDigits(Last(s))
    && (leadingZero <==> digits == 1 && Last(s)[0] == ZERO)
    && (digits > 0 ==> IsNumber(Last(s)))
  }

  /** Once the scanner refuses a prefix, no text that goes on from it is a version. */
  predicate IsHopeless(s: Text) {
    || |Ended(s)| > 2 || !AreNumbers(Ended(s)) || !AllDigits(Last(s))
    || (|Last(s)| > 1 && Last(s)[0] == ZERO)
  }

  lemma {:induction false} HopelessStays(s: Text, t: Text)
    requires IsHopeless(s)
    ensures IsHopeless(s + t)
  {
    if t == [] {
      Empty(s);
    } else {
      var n := |t| - 1;
      HopelessStays(s, t[..n]);
      assert s + t == s + t[..n] + [t[n]];
      HopelessOneMore(s + t[..n], t[n]);
    }
  }

  lemma HopelessOneMore(s: Text, b: byte)
    requires IsHopeless(s)
    ensures IsHopeless(s + [b])
  {
    assert (s + [b])[..|s|] == s;
    var e := Ended(s);
    if b == DOT {
      assert Ended(s + [b]) == e + [Last(s)];
      if !AreNumbers(e) {
        var i :| 0 <= i < |e| && !IsNumber(e[i]);
        assert (e + [Last(s)])[i] == e[i];
      } else if |e| <= 2 {
        assert !IsNumber(Last(s));
        assert (e + [Last(s)])[|e|] == Last(s);
      }
    } else {
      assert Last(s + [b]) == Last(s) + [b];
      if !AllDigits(Last(s)) {
        var i :| 0 <= i < |Last(s)| && !IsDigit(Last(s)[i]);
        assert (Last(s) + [b])[i] == Last(s)[i];
      }
    }
  }

  lemma HopelessIsNoVersion(b: Text, i: nat)
    requires i <= |b| && IsHopeless(b[..i])
    ensures !IsVersion(b)
  {
    HopelessStays(b[..i], b[i..]);
    assert b == b[..i] + b[i..];
    VersionIsThreeNumbers(b);
    assert Parts(b)[|Ended(b)|] == Last(b) && forall k | 0 <= k < |Ended(b)| :: Parts(b)[k] == Ended(b)[k];
  }

  lemma ScanDot(s: Text, dots: nat, digits: nat, leadingZero: bool)
    requires IsScanned(s, dots, digits, leadingZero)
    ensures if digits == 0 || dots == 2 then IsHopeless(s + [DOT]) else IsScanned(s + [DOT], dots + 1, 0, false)
  {
    AddDot(s);
    assert Ended(s + [DOT])[dots] == Last(s);
  }

  lemma ScanByte(s: Text, c: byte, dots: nat, digits: nat, leadingZero: bool)
    requires IsScanned(s, dots, digits, leadingZero) && c != DOT
    ensures if leadingZero || !IsDigit(c) then IsHopeless(s + [c])
            else IsScanned(s + [c], dots, digits + 1, digits == 0 && c == ZERO)
  {
    AddDotless(s, [c]);
    assert (Last(s) + [c])[digits] == c;
  }

  /** The scanner: true exactly for a version. */
  method IsReleaseVersion(b: Text) returns (r: bool)
    ensures r <==> IsVersion(b)
  {
    var i, dots, digits, leadingZero := 0, 0, 0, false;
    while i < |b|
      invariant 0 <= i <= |b|
      invariant IsScanned(b[..i], dots, digits, leadingZero)
    {
      var c := b[i];
      assert b[..i + 1] == b[..i] + [c];
      if c == DOT {
        ScanDot(b[..i], dots, digits, leadingZero);
        if digits == 0 || dots == 2 {
          HopelessIsNoVersion(b, i + 1);
          return false;
        }
        dots, digits, leadingZero := dots + 1, 0, false;
      } else {
        ScanByte(b[..i], c, dots, digits, leadingZero);
        if !IsDigit(c) || leadingZero {
          HopelessIsNoVersion(b, i + 1);
          return false;
        }
        leadingZero := digits == 0 && c == ZERO;
        digits := digits + 1;
      }
      i := i + 1;
    }
    assert b[..i] == b;
    ScannedIsVersion(b, dots, digits, leadingZero);
    r := dots == 2 && digits > 0;
  }

  lemma ScannedIsVersion(b: Text, dots: nat, digits: nat, leadingZero: bool)
    requires IsScanned(b, dots, digits, leadingZero)
    ensures IsVersion(b) <==> dots == 2 && digits > 0
  {
    VersionIsThreeNumbers(b);
    assert Parts(b)[dots] == Last(b) && forall k | 0 <= k < dots :: Parts(b)[k] == Ended(b)[k];
  }

  /** The two readings accept the same texts, whatever the text. */
  method ReadBoth(s: Text) returns (scanned: bool, split: Option<(Text, Text, Text)>)
    ensures scanned <==> split.Some?
    ensures scanned ==> s == Joined(split.value.0, split.value.1, split.value.2)
  {
    scanned := IsReleaseVersion(s);
    split := ReleaseComponents(s);
  }
}
