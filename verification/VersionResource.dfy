/**
 The Windows version resource: the tree of blocks the build script writes, and a
 reader that follows `wLength`, `wValueLength`, `wType` and the 32-bit alignment.
 Reading is proved the inverse of writing.
 */
module VersionResource {
  import opened Common

  type Bytes = seq<byte>

  datatype Value = NoValue | Binary(bytes: Bytes) | Text(units: seq<u16>)

  datatype Tree = Tree(key: seq<u16>, value: Value, children: seq<Tree>)

  // ------------------------------------------------------------------- writing

  function Le16(n: nat): Bytes {
    [n % 0x100, n / 0x100 % 0x100]
  }

  function Zeros(n: nat): (r: Bytes)
    ensures |r| == n
  {
    seq(n, _ => 0)
  }

  /** How far an offset is from its 32-bit boundary. */
  function Padding(offset: nat): nat {
    if offset >= 4 then Padding(offset - 4) else if offset == 0 then 0 else 4 - offset
  }

  lemma {:induction false} PaddingAligns(offset: nat)
    ensures Padding(offset) == if offset % 4 == 0 then 0 else 4 - offset % 4
  {
    if offset >= 4 {
      PaddingAligns(offset - 4);
    }
  }

  function UnitBytes(units: seq<u16>): Bytes {
    if units == [] then [] else UnitBytes(units[..|units| - 1]) + Le16(units[|units| - 1])
  }

  function KeyBytes(key: seq<u16>): Bytes {
    var bytes := UnitBytes(key + [0]);
    bytes + Zeros(Padding(6 + |bytes|))
  }

  function ValueBytes(value: Value): Bytes {
    match value
    case NoValue => []
    case Binary(bytes) => bytes
    case Text(units) => UnitBytes(units + [0])
  }

  /** `wValueLength`: bytes of a binary value, units of a text with its end. */
  function ValueLength(value: Value): nat {
    match value
    case NoValue => 0
    case Binary(bytes) => |bytes|
    case Text(units) => |units| + 1
  }

  function Kind(value: Value): nat {
    if value.Binary? then 0 else 1
  }

  /** The children's blocks, padded apart. */
  function ChildBytes(offset: nat, children: seq<Bytes>): Bytes
    decreases |children|
  {
    if children == [] then []
    else
      Zeros(Padding(offset)) + children[0]
      + ChildBytes(offset + Padding(offset) + |children[0]|, children[1..])
  }

  /** What follows the block's first six bytes. */
  function Body(key: seq<u16>, value: Value, children: seq<Bytes>): Bytes {
    var start := KeyBytes(key) + ValueBytes(value);
    start + ChildBytes(6 + |start|, children)
  }

  /** One block: its lengths as 16 bits hold them, then its body. */
  function BlockBytes(key: seq<u16>, value: Value, children: seq<Bytes>): Bytes {
    var body := Body(key, value, children);
    Le16(6 + |body|) + Le16(ValueLength(value)) + Le16(Kind(value)) + body
  }

  function Write(t: Tree): Bytes {
    BlockBytes(t.key, t.value, WriteAll(t.children))
  }

  function WriteAll(trees: seq<Tree>): seq<Bytes> {
    if trees == [] then [] else [Write(trees[0])] + WriteAll(trees[1..])
  }

  // ----------------------------------------------------- the build script's method

  method Pad4(bytes: Bytes) returns (out: Bytes)
    ensures out == bytes + Zeros(Padding(|bytes|))
  {
    out := bytes;
    PaddingAligns(|bytes|);
    ghost var added: nat := 0;
    while |out| % 4 != 0
      invariant added <= Padding(|bytes|) && out == bytes + Zeros(added)
      decreases Padding(|bytes|) - added
    {
      out := out + [0];
      added := added + 1;
    }
  }

  method AppendUnits(bytes: Bytes, units: seq<u16>) returns (out: Bytes)
    ensures out == bytes + UnitBytes(units)
  {
    out := bytes;
    for i := 0 to |units|
      invariant out == bytes + UnitBytes(units[..i])
    {
      assert units[..i + 1][..i] == units[..i];
      out := out + Le16(units[i]);
    }
    assert units[..|units|] == units;
  }

  /** Six bytes kept for the lengths, patched once the block is complete. */
  method Block(key: seq<u16>, value: Value, children: seq<Bytes>) returns (out: Bytes)
    ensures out == BlockBytes(key, value, children)
  {
    var head: Bytes := [0, 0, 0, 0, 0, 0];
    out := AppendUnits(head, key + [0]);
    Assoc(head, UnitBytes(key + [0]), Zeros(Padding(|out|)));
    out := Pad4(out);
    out := AppendValue(out, value);
    Assoc(head, KeyBytes(key), ValueBytes(value));
    ghost var start := KeyBytes(key) + ValueBytes(value);
    out := AppendChildren(out, children);
    Assoc(head, start, ChildBytes(6 + |start|, children));
    out := Patch(out, Le16(|out|), Le16(ValueLength(value)), Le16(Kind(value)), Body(key, value, children));
  }

  method AppendValue(bytes: Bytes, value: Value) returns (out: Bytes)
    ensures out == bytes + ValueBytes(value)
  {
    out := bytes;
    match value {
      case NoValue =>
      case Binary(bytes) => out := out + bytes;
      case Text(units) => out := AppendUnits(out, units + [0]);
    }
  }

  method Patch(bytes: Bytes, length: Bytes, valueLength: Bytes, kind: Bytes, ghost body: Bytes) returns (out: Bytes)
    requires |bytes| >= 6 && bytes[6..] == body && |length| == |valueLength| == |kind| == 2
    ensures out == length + valueLength + kind + body
  {
    out := length + bytes[2..];
    out := out[..2] + valueLength + out[4..];
    out := out[..4] + kind + out[6..];
  }

  method AppendChildren(bytes: Bytes, children: seq<Bytes>) returns (out: Bytes)
    ensures out == bytes + ChildBytes(|bytes|, children)
  {
    out := bytes;
    for i := 0 to |children|
      invariant bytes + ChildBytes(|bytes|, children) == out + ChildBytes(|out|, children[i..])
    {
      ghost var before := out;
      out := Pad4(out);
      out := out + children[i];
      assert children[i..][1..] == children[i + 1..];
      Assoc(before, Zeros(Padding(|before|)) + children[i], ChildBytes(|out|, children[i + 1..]));
      Assoc(before, Zeros(Padding(|before|)), children[i]);
    }
  }

  // ------------------------------------------------------------------- reading

  function At16(s: Bytes): u16
    requires |s| >= 2
  {
    (s[0] as int) + 0x100 * (s[1] as int)
  }

  /** How many units come before the first that is 0. */
  function KeyLength(s: Bytes): Option<nat> {
    if |s| < 2 then None
    else if At16(s) == 0 then Some(0)
    else
      var others := KeyLength(s[2..]);
      if others.None? then None else Some(others.value + 1)
  }

  function Units(s: Bytes, n: nat): (r: seq<u16>)
    requires |s| >= 2 * n
    ensures |r| == n
  {
    if n == 0 then [] else [At16(s)] + Units(s[2..], n - 1)
  }

  /** The value at the start of `s`, of that `wValueLength` and `wType`. */
  function ReadValue(s: Bytes, length: nat, kind: nat): Option<(Value, nat)> {
    if kind == 0 then
      if length > |s| then None else Some((Binary(s[..length]), length))
    else if length == 0 then Some((NoValue, 0))
    else if 2 * length > |s| then None
    else
      var units := Units(s, length);
      if units[length - 1] != 0 then None else Some((Text(units[..length - 1]), 2 * length))
  }

  /** A block at the start of `s`, and its length: what follows `wLength` bytes is
      not looked at. */
  function Parse(s: Bytes): (r: Option<(Tree, nat)>)
    ensures r.Some? ==> 6 <= r.value.1 <= |s| && r.value.1 < 0x1_0000
    decreases |s|, 0, 0
  {
    if |s| < 6 then None
    else
      var length := At16(s);
      if length < 6 || length > |s| then None
      else
        var t := ParseBody(s[6..length], At16(s[2..]), At16(s[4..]));
        if t.None? then None else Some((t.value, length))
  }

  /** What follows a block's first six bytes: the key, its padding, the value and the
      children. */
  function ParseBody(b: Bytes, valueLength: nat, kind: nat): Option<Tree>
    decreases |b|, |b| + 2, 0
  {
    var k := KeyLength(b);
    if k.None? || 2 * k.value > |b| then None
    else ParseAfterKey(b, k.value, 2 * (k.value + 1) + Padding(6 + 2 * (k.value + 1)), valueLength, kind)
  }

  function ParseAfterKey(b: Bytes, k: nat, start: nat, valueLength: nat, kind: nat): Option<Tree>
    requires 2 * k <= |b| && start > 0
    decreases |b|, |b| + 1, 0
  {
    if start > |b| then None
    else
      var value := ReadValue(b[start..], valueLength, kind);
      if value.None? || start + value.value.1 > |b| then None
      else
        var children := ParseAll(b, start + value.value.1);
        if children.None? then None else Some(Tree(Units(b, k), value.value.0, children.value))
  }

  /** The blocks of a body from `offset` on, each at a 32-bit boundary of its parent,
      whose first six bytes the body leaves out. */
  function ParseAll(b: Bytes, offset: nat): Option<seq<Tree>>
    requires 0 < offset <= |b|
    decreases |b|, |b| - offset, 1
  {
    if offset == |b| then Some([])
    else
      var at := offset + Padding(6 + offset);
      if at >= |b| then None else ParseNext(b, at)
  }

  function ParseNext(b: Bytes, at: nat): Option<seq<Tree>>
    requires 0 < at < |b|
    decreases |b|, |b| - at, 0
  {
    var first := Parse(b[at..]);
    if first.None? then None
    else
      var others := ParseAll(b, at + first.value.1);
      if others.None? then None else Some([first.value.0] + others.value)
  }

  // ------------------------------------------------------- reading undoes writing

  lemma Le16ReadsBack(n: nat, rest: Bytes)
    ensures At16(Le16(n) + rest) == n % 0x1_0000
  {
    assert n % 0x1_0000 == n % 0x100 + 0x100 * (n / 0x100 % 0x100);
  }

  lemma {:induction false} UnitsFromFront(units: seq<u16>)
    requires units != []
    ensures UnitBytes(units) == Le16(units[0]) + UnitBytes(units[1..])
  {
    var n := |units| - 1;
    if n > 0 {
      UnitsFromFront(units[..n]);
      assert units[..n][1..] == units[1..][..n - 1];
      Assoc(Le16(units[0]), UnitBytes(units[1..][..n - 1]), Le16(units[n]));
    } else {
      assert units[..0] == [] && units[1..] == [];
      Empty(Le16(units[0]));
    }
  }

  lemma {:induction false} UnitBytesSize(units: seq<u16>)
    ensures |UnitBytes(units)| == 2 * |units|
  {
    if units != [] {
      UnitBytesSize(units[..|units| - 1]);
    }
  }

  lemma {:induction false} UnitsReadBack(units: seq<u16>, rest: Bytes)
    ensures |UnitBytes(units)| == 2 * |units|
    ensures Units(UnitBytes(units) + rest, |units|) == units
    decreases |units|
  {
    UnitBytesSize(units);
    if units != [] {
      UnitsFromFront(units);
      UnitsReadBack(units[1..], rest);
      var s := UnitBytes(units) + rest;
      Assoc(Le16(units[0]), UnitBytes(units[1..]), rest);
      Le16ReadsBack(units[0], UnitBytes(units[1..]) + rest);
      assert s[2..] == UnitBytes(units[1..]) + rest;
    }
  }

  /** A key without a 0 ends where its 0 is. */
  lemma {:induction false} KeyReadsBack(key: seq<u16>, rest: Bytes)
    requires 0 !in key
    ensures KeyLength(UnitBytes(key + [0]) + rest) == Some(|key|)
    decreases |key|
  {
    var units := key + [0];
    UnitsFromFront(units);
    var s := UnitBytes(units) + rest;
    Assoc(Le16(units[0]), UnitBytes(units[1..]), rest);
    Le16ReadsBack(units[0], UnitBytes(units[1..]) + rest);
    assert s[2..] == UnitBytes(units[1..]) + rest;
    if key != [] {
      assert units[1..] == key[1..] + [0];
      KeyReadsBack(key[1..], rest);
    }
  }

  lemma ValueReadsBack(value: Value, rest: Bytes)
    ensures ReadValue(ValueBytes(value) + rest, ValueLength(value), Kind(value)) == Some((value, |ValueBytes(value)|))
  {
    match value
    case NoValue =>
    case Binary(bytes) => assert (bytes + rest)[..|bytes|] == bytes;
    case Text(units) =>
      UnitsReadBack(units + [0], rest);
      assert (units + [0])[..|units|] == units;
  }

  /** No key holds a 0. */
  predicate IsTree(t: Tree) {
    0 !in t.key && forall i | 0 <= i < |t.children| :: IsTree(t.children[i])
  }

  lemma ValueFits(value: Value)
    ensures ValueLength(value) <= |ValueBytes(value)|
  {
    if value.Text? {
      UnitBytesSize(value.units + [0]);
    }
  }

  /** The reader finds `t` in the block `b`, whatever follows it. */
  ghost predicate ReadsBack(t: Tree, b: Bytes) {
    forall rest: Bytes :: Parse(b + rest) == Some((t, |b|))
  }

  /** The reader recovers every tree from its block, whatever follows it, as long as
      16 bits hold the block's length. */
  lemma {:induction false} BlockReadsBack(t: Tree)
    requires IsTree(t) && |Write(t)| < 0x1_0000
    ensures ReadsBack(t, Write(t))
    decreases t, 1
  {
    var children := WriteAll(t.children);
    AllReadBack(6 + |KeyBytes(t.key) + ValueBytes(t.value)|, t.children);
    BodyReadsBack(t.key, t.value, t.children, children);
    forall rest: Bytes ensures Parse(BlockBytes(t.key, t.value, children) + rest) == Some((t, |Write(t)|)) {
      HeaderReadsBack(t.key, t.value, children, rest);
    }
  }

  lemma {:induction false} AllReadBack(offset: nat, trees: seq<Tree>)
    requires forall i | 0 <= i < |trees| :: IsTree(trees[i])
    requires |ChildBytes(offset, WriteAll(trees))| < 0x1_0000
    ensures AreReadBack(trees, WriteAll(trees))
    decreases trees
  {
    if trees != [] {
      var first, others := Write(trees[0]), WriteAll(trees[1..]);
      assert WriteAll(trees) == [first] + others;
      FirstChild(offset, first, others);
      BlockReadsBack(trees[0]);
      AllReadBack(offset + Padding(offset) + |first|, trees[1..]);
    }
  }

  ghost predicate AreReadBack(trees: seq<Tree>, blocks: seq<Bytes>) {
    |trees| == |blocks| && forall i | 0 <= i < |trees| :: ReadsBack(trees[i], blocks[i])
  }

  lemma FirstChild(offset: nat, first: Bytes, others: seq<Bytes>)
    ensures var next := offset + Padding(offset) + |first|;
            && ChildBytes(offset, [first] + others) == Zeros(Padding(offset)) + first + ChildBytes(next, others)
  {
    assert ([first] + others)[1..] == others;
  }

  lemma BodyReadsBack(key: seq<u16>, value: Value, trees: seq<Tree>, blocks: seq<Bytes>)
    requires 0 !in key && AreReadBack(trees, blocks)
    ensures ParseBody(Body(key, value, blocks), ValueLength(value), Kind(value)) == Some(Tree(key, value, trees))
  {
    var body := Body(key, value, blocks);
    var start, end := PartsOf(body, key, value, blocks);
    ChildrenReadBack(body, end, trees, blocks);
    BodyOf(body, ValueLength(value), Kind(value), |key|, start, value, end, trees);
  }

  /** Where the value and the children of a body are, and that its key and value are
      read there. */
  lemma PartsOf(b: Bytes, key: seq<u16>, value: Value, blocks: seq<Bytes>) returns (start: nat, end: nat)
    requires 0 !in key && b == Body(key, value, blocks)
    ensures start == 2 * (|key| + 1) + Padding(6 + 2 * (|key| + 1)) && 0 < start <= end <= |b|
    ensures KeyLength(b) == Some(|key|) && 2 * |key| <= |b| && Units(b, |key|) == key
    ensures ReadValue(b[start..], ValueLength(value), Kind(value)) == Some((value, end - start))
    ensures b[end..] == ChildBytes(6 + end, blocks)
  {
    var first, second := KeyBytes(key), ValueBytes(value);
    var others := ChildBytes(6 + |first + second|, blocks);
    start, end := |first|, |first + second|;
    ThreeParts(first, second, others);
    KeyEnds(key, second + others);
    KeyUnits(key, second + others);
    ValueReadsBack(value, others);
  }

  /** A body is read part by part. */
  lemma BodyOf(b: Bytes, valueLength: nat, kind: nat, k: nat, start: nat, value: Value, end: nat, children: seq<Tree>)
    requires KeyLength(b) == Some(k) && 2 * k <= |b|
    requires start == 2 * (k + 1) + Padding(6 + 2 * (k + 1)) && start <= end <= |b|
    requires ReadValue(b[start..], valueLength, kind) == Some((value, end - start))
    requires ParseAll(b, end) == Some(children)
    ensures ParseBody(b, valueLength, kind) == Some(Tree(Units(b, k), value, children))
  {
    assert ParseBody(b, valueLength, kind) == ParseAfterKey(b, k, start, valueLength, kind);
  }

  lemma ThreeParts(a: Bytes, b: Bytes, c: Bytes)
    ensures a + b + c == a + (b + c)
    ensures (a + b + c)[|a|..] == b + c && (a + b + c)[|a + b|..] == c
  {
  }

  /** Where the parts of a block are. */
  lemma HeaderParts(a: Bytes, b: Bytes, c: Bytes, body: Bytes, rest: Bytes)
    requires |a| == |b| == |c| == 2
    ensures var s := a + b + c + body + rest;
            && s == a + (b + c + body + rest) && s[2..] == b + (c + body + rest) && s[4..] == c + (body + rest)
            && s[6..6 + |body|] == body
  {
  }

  lemma FieldsReadBack(n: u16, valueLength: u16, kind: u16, body: Bytes, rest: Bytes)
    requires n == 6 + |body|
    ensures var s := Le16(n) + Le16(valueLength) + Le16(kind) + body + rest;
            && At16(s) == n && At16(s[2..]) == valueLength && At16(s[4..]) == kind && s[6..n] == body
  {
    var a, b, c := Le16(n), Le16(valueLength), Le16(kind);
    HeaderParts(a, b, c, body, rest);
    Le16ReadsBack(n, b + c + body + rest);
    Le16ReadsBack(valueLength, c + body + rest);
    Le16ReadsBack(kind, body + rest);
  }

  lemma HeaderReadsBack(key: seq<u16>, value: Value, children: seq<Bytes>, rest: Bytes)
    requires |BlockBytes(key, value, children)| < 0x1_0000
    ensures var s, body := BlockBytes(key, value, children) + rest, Body(key, value, children);
            && |BlockBytes(key, value, children)| == 6 + |body| == At16(s)
            && At16(s[2..]) == ValueLength(value) && At16(s[4..]) == Kind(value) && s[6..At16(s)] == body
  {
    ValueFits(value);
    FieldsReadBack(6 + |Body(key, value, children)|, ValueLength(value), Kind(value), Body(key, value, children), rest);
  }

  lemma KeySplit(key: seq<u16>, rest: Bytes) returns (zeros: Bytes)
    ensures KeyBytes(key) + rest == UnitBytes(key + [0]) + (zeros + rest)
    ensures |KeyBytes(key)| == 2 * (|key| + 1) + Padding(6 + 2 * (|key| + 1))
  {
    var bytes := UnitBytes(key + [0]);
    zeros := Zeros(Padding(6 + |bytes|));
    UnitBytesSize(key + [0]);
    Assoc(bytes, zeros, rest);
  }

  lemma KeyEnds(key: seq<u16>, rest: Bytes)
    requires 0 !in key
    ensures KeyLength(KeyBytes(key) + rest) == Some(|key|)
    ensures |KeyBytes(key)| == 2 * (|key| + 1) + Padding(6 + 2 * (|key| + 1))
  {
    var zeros := KeySplit(key, rest);
    KeyReadsBack(key, zeros + rest);
  }

  lemma KeyUnits(key: seq<u16>, rest: Bytes)
    ensures |KeyBytes(key) + rest| >= 2 * |key|
    ensures Units(KeyBytes(key) + rest, |key|) == key
  {
    var zeros := KeySplit(key, rest);
    assert (key + [0])[..|key|] == key;
    Assoc(UnitBytes(key), Le16(0), zeros + rest);
    UnitsReadBack(key, Le16(0) + (zeros + rest));
  }

  lemma {:induction false} ChildrenReadBack(b: Bytes, offset: nat, trees: seq<Tree>, blocks: seq<Bytes>)
    requires 0 < offset <= |b| && AreReadBack(trees, blocks)
    requires b[offset..] == ChildBytes(6 + offset, blocks)
    ensures ParseAll(b, offset) == Some(trees)
    decreases trees
  {
    if trees == [] {
      assert |b| == offset;
    } else {
      var at := NextChild(b, offset, trees[0], blocks);
      ChildrenReadBack(b, at + |blocks[0]|, trees[1..], blocks[1..]);
      AllOf(b, offset, at, trees, |blocks[0]|);
    }
  }

  /** Where the next block is, and that it is read there. */
  lemma NextChild(b: Bytes, offset: nat, t: Tree, blocks: seq<Bytes>) returns (at: nat)
    requires 0 < offset <= |b| && blocks != [] && ReadsBack(t, blocks[0])
    requires b[offset..] == ChildBytes(6 + offset, blocks)
    ensures at == offset + Padding(6 + offset) && at < at + |blocks[0]| <= |b|
    ensures Parse(b[at..]) == Some((t, |blocks[0]|))
    ensures b[at + |blocks[0]|..] == ChildBytes(6 + (at + |blocks[0]|), blocks[1..])
  {
    at := offset + Padding(6 + offset);
    var others := ChildBytes(6 + (at + |blocks[0]|), blocks[1..]);
    ChildParts(b, offset, Zeros(Padding(6 + offset)), blocks[0], others);
    FoundFirst(t, blocks[0], others);
  }

  lemma FoundFirst(t: Tree, b: Bytes, rest: Bytes)
    requires ReadsBack(t, b)
    ensures Parse(b + rest) == Some((t, |b|)) && 6 <= |b| < 0x1_0000
  {
    assert Parse(b + []).Some?;
    Empty(b);
  }

  lemma AllOf(b: Bytes, offset: nat, at: nat, trees: seq<Tree>, n: nat)
    requires trees != [] && 0 < offset <= at < |b| && at == offset + Padding(6 + offset)
    requires Parse(b[at..]) == Some((trees[0], n)) && at + n <= |b|
    requires ParseAll(b, at + n) == Some(trees[1..])
    ensures ParseAll(b, offset) == Some(trees)
  {
    assert [trees[0]] + trees[1..] == trees;
    assert ParseAll(b, offset) == ParseNext(b, at);
  }

  lemma ChildParts(b: Bytes, offset: nat, zeros: Bytes, first: Bytes, others: Bytes)
    requires offset <= |b| && b[offset..] == zeros + first + others
    ensures offset + |zeros| + |first| + |others| == |b|
    ensures b[offset + |zeros|..] == first + others && b[offset + |zeros| + |first|..] == others
  {
    assert b[offset + |zeros|..] == b[offset..][|zeros|..];
    assert b[offset + |zeros| + |first|..] == b[offset..][|zeros| + |first|..];
  }

  // ------------------------------------------------- exactly when reading is possible

  /** Reading undoes writing exactly for a tree without a 0 in a key whose block's
      length 16 bits hold. */
  lemma ReadsBackExactly(t: Tree)
    ensures ReadsBack(t, Write(t)) <==> IsTree(t) && |Write(t)| < 0x1_0000
  {
    if ReadsBack(t, Write(t)) {
      FoundFirst(t, Write(t), []);
      ParsedIsTree(Write(t) + []);
    } else if IsTree(t) && |Write(t)| < 0x1_0000 {
      BlockReadsBack(t);
    }
  }

  /** Whatever the reader accepts has no 0 in a key. */
  lemma {:induction false} ParsedIsTree(s: Bytes)
    requires Parse(s).Some?
    ensures IsTree(Parse(s).value.0)
    decreases |s|, 0
  {
    BodyIsTree(s[6..At16(s)], At16(s[2..]), At16(s[4..]));
  }

  lemma {:induction false} BodyIsTree(b: Bytes, valueLength: nat, kind: nat)
    requires ParseBody(b, valueLength, kind).Some?
    ensures IsTree(ParseBody(b, valueLength, kind).value)
    decreases |b|, |b| + 1
  {
    var k, end := BodySplits(b, valueLength, kind);
    KeyHoldsNoZero(b, k);
    AllAreTrees(b, end);
  }

  lemma BodySplits(b: Bytes, valueLength: nat, kind: nat) returns (k: nat, end: nat)
    requires ParseBody(b, valueLength, kind).Some?
    ensures KeyLength(b) == Some(k) && 2 * k <= |b| && 0 < end <= |b| && ParseAll(b, end).Some?
    ensures var t := ParseBody(b, valueLength, kind).value;
            t.key == Units(b, k) && t.children == ParseAll(b, end).value
  {
    k := KeyLength(b).value;
    var start := 2 * (k + 1) + Padding(6 + 2 * (k + 1));
    assert ParseBody(b, valueLength, kind) == ParseAfterKey(b, k, start, valueLength, kind);
    end := start + ReadValue(b[start..], valueLength, kind).value.1;
  }

  lemma {:induction false} KeyHoldsNoZero(s: Bytes, k: nat)
    requires KeyLength(s) == Some(k) && 2 * k <= |s|
    ensures 0 !in Units(s, k)
    decreases k
  {
    if k > 0 {
      KeyHoldsNoZero(s[2..], k - 1);
    }
  }

  lemma {:induction false} AllAreTrees(b: Bytes, offset: nat)
    requires 0 < offset <= |b| && ParseAll(b, offset).Some?
    ensures var trees := ParseAll(b, offset).value;
            forall i | 0 <= i < |trees| :: IsTree(trees[i])
    decreases |b|, |b| - offset
  {
    if offset < |b| {
      var at, next := AllSplits(b, offset);
      ParsedIsTree(b[at..]);
      AllAreTrees(b, next);
    }
  }

  lemma AllSplits(b: Bytes, offset: nat) returns (at: nat, next: nat)
    requires 0 < offset < |b| && ParseAll(b, offset).Some?
    ensures offset <= at < next <= |b| && Parse(b[at..]).Some? && ParseAll(b, next).Some?
    ensures ParseAll(b, offset).value == [Parse(b[at..]).value.0] + ParseAll(b, next).value
  {
    at := offset + Padding(6 + offset);
    assert ParseAll(b, offset) == ParseNext(b, at);
    next := at + Parse(b[at..]).value.1;
  }

  /** `wLength` is the block's length exactly while 16 bits hold it. */
  lemma LengthIsHeld(t: Tree)
    ensures |Write(t)| >= 2
    ensures At16(Write(t)) == |Write(t)| <==> |Write(t)| < 0x1_0000
  {
    var body := Body(t.key, t.value, WriteAll(t.children));
    LengthOfBlock(6 + |body|, Le16(ValueLength(t.value)) + Le16(Kind(t.value)), body);
    Assoc(Le16(6 + |body|), Le16(ValueLength(t.value)), Le16(Kind(t.value)));
  }

  lemma LengthOfBlock(n: nat, lengths: Bytes, body: Bytes)
    requires |lengths| == 4 && n == 6 + |body|
    ensures var s := Le16(n) + lengths + body;
            |s| == n && (At16(s) == n <==> n < 0x1_0000)
  {
    Assoc(Le16(n), lengths, body);
    Le16ReadsBack(n, lengths + body);
  }
}
