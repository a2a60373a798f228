/**
 The compiled resource file of the agent's version: the VERSIONINFO tree, in a file of
 resources. A reader recovers the version from it exactly while its text is short
 enough for the outermost block's 16-bit length.
 */
module VersionInfo {
  import opened Common
  import opened VersionResource

  const LANGUAGE: u16 := 0x0409
  const CODE_PAGE: u16 := 1200
  const RT_VERSION: u16 := 16

  /** The UTF-16 units of an ASCII text. */
  function Ascii(s: string): (r: seq<u16>)
    ensures |r| == |s|
  {
    seq(|s|, i requires 0 <= i < |s| => (s[i] as int) % 0x1_0000)
  }

  predicate IsAscii(s: string) {
    forall c | c in s :: 0 < c as int < 0x80
  }

  // --------------------------------------------------------------------- 32 bits

  function Le32(n: nat): Bytes {
    Le16(n) + Le16(n / 0x1_0000)
  }

  function At32(s: Bytes): nat
    requires |s| >= 4
  {
    At16(s) + 0x1_0000 * At16(s[2..])
  }

  lemma Le32ReadsBack(n: nat, rest: Bytes)
    requires n < 0x1_0000_0000
    ensures |Le32(n)| == 4 && At32(Le32(n) + rest) == n
  {
    Le16ReadsBack(n, Le16(n / 0x1_0000) + rest);
    Le16ReadsBack(n / 0x1_0000, rest);
    Assoc(Le16(n), Le16(n / 0x1_0000), rest);
    assert (Le32(n) + rest)[2..] == Le16(n / 0x1_0000) + rest;
  }

  function Dwords(values: seq<nat>): Bytes {
    if values == [] then [] else Le32(values[0]) + Dwords(values[1..])
  }

  lemma {:induction false} DwordsReadBack(values: seq<nat>, i: nat)
    requires i < |values| && values[i] < 0x1_0000_0000
    ensures |Dwords(values)| >= 4 * i + 4 && At32(Dwords(values)[4 * i..]) == values[i]
    decreases i
  {
    var first, others := Le32(values[0]), Dwords(values[1..]);
    if i == 0 {
      Le32ReadsBack(values[0], others);
    } else {
      DwordsReadBack(values[1..], i - 1);
      assert (first + others)[4 * i..] == others[4 * (i - 1)..];
    }
  }

  // --------------------------------------------------------------------- the tree

  /** VS_FIXEDFILEINFO: the file's and the product's numbers are the same. */
  function FixedInfo(x: u16, y: u16, z: u16): seq<nat> {
    var ms: nat, ls: nat := x * 0x1_0000 + y, z * 0x1_0000;
    [0xFEEF_04BD, 0x0001_0000, ms, ls, ms, ls, 0x3F, 0, 0x0004_0004, 1, 0, 0, 0]
  }

  function Leaf(key: string, text: seq<u16>): Tree {
    Tree(Ascii(key), Text(text), [])
  }

  function Strings(text: seq<u16>): (r: seq<Tree>)
    ensures |r| == 5
  {
    [Leaf("FileDescription", Ascii("CyberGuard endpoint agent")), Leaf("FileVersion", text),
     Leaf("OriginalFilename", Ascii("cg-agent.exe")), Leaf("ProductName", Ascii("CyberGuard Agent")),
     Leaf("ProductVersion", text)]
  }

  function Table(text: seq<u16>): Tree {
    Tree(Ascii("040904B0"), NoValue, Strings(text))
  }

  function StringInfo(text: seq<u16>): Tree {
    Tree(Ascii("StringFileInfo"), NoValue, [Table(text)])
  }

  function Translation(): Tree {
    Tree(Ascii("Translation"), Binary(Le16(LANGUAGE) + Le16(CODE_PAGE)), [])
  }

  function VarInfo(): Tree {
    Tree(Ascii("VarFileInfo"), NoValue, [Translation()])
  }

  function VersionTree(x: u16, y: u16, z: u16, text: seq<u16>): Tree {
    Tree(Ascii("VS_VERSION_INFO"), Binary(Dwords(FixedInfo(x, y, z))), [StringInfo(text), VarInfo()])
  }

  lemma {:induction false} WrittenOneByOne(trees: seq<Tree>, blocks: seq<Bytes>)
    requires |trees| == |blocks| && forall i | 0 <= i < |trees| :: blocks[i] == Write(trees[i])
    ensures WriteAll(trees) == blocks
    decreases |trees|
  {
    if trees != [] {
      var rest := trees[1..];
      forall i | 0 <= i < |rest| ensures blocks[1..][i] == Write(rest[i]) {
        assert rest[i] == trees[i + 1];
      }
      WrittenOneByOne(rest, blocks[1..]);
      assert WriteAll(trees) == [Write(trees[0])] + WriteAll(rest);
      assert blocks == [blocks[0]] + blocks[1..];
    }
  }

  method WriteStrings(entries: seq<Tree>) returns (blocks: seq<Bytes>)
    requires forall i | 0 <= i < |entries| :: entries[i].children == []
    ensures blocks == WriteAll(entries)
  {
    blocks := [];
    for i := 0 to |entries|
      invariant |blocks| == i && forall j | 0 <= j < i :: blocks[j] == Write(entries[j])
    {
      var b := Block(entries[i].key, entries[i].value, []);
      blocks := blocks + [b];
    }
    WrittenOneByOne(entries, blocks);
  }

  /** A block of the tree, from its children's. */
  method Node(t: Tree, blocks: seq<Bytes>) returns (out: Bytes)
    requires blocks == WriteAll(t.children)
    ensures out == Write(t)
  {
    out := Block(t.key, t.value, blocks);
  }

  lemma WrittenOne(t: Tree)
    ensures WriteAll([t]) == [Write(t)]
  {
    WrittenOneByOne([t], [Write(t)]);
  }

  method WriteStringInfo(text: seq<u16>) returns (out: Bytes)
    ensures out == Write(StringInfo(text))
  {
    var strings := WriteStrings(Strings(text));
    var table := Node(Table(text), strings);
    WrittenOne(Table(text));
    out := Node(StringInfo(text), [table]);
  }

  method WriteVarInfo() returns (out: Bytes)
    ensures out == Write(VarInfo())
  {
    var translation := Node(Translation(), []);
    WrittenOne(Translation());
    out := Node(VarInfo(), [translation]);
  }

  /** The innermost blocks first, each given to its parent. */
  method WriteVersion(x: u16, y: u16, z: u16, text: seq<u16>) returns (out: Bytes)
    ensures out == Write(VersionTree(x, y, z, text))
  {
    var stringInfo := WriteStringInfo(text);
    var varInfo := WriteVarInfo();
    WrittenOneByOne([StringInfo(text), VarInfo()], [stringInfo, varInfo]);
    out := Node(VersionTree(x, y, z, text), [stringInfo, varInfo]);
  }

  // ----------------------------------------------------------------- how long it is

  /** The next 32-bit boundary. */
  function Up(n: nat): nat {
    if n >= 4 then Up(n - 4) + 4 else if n == 0 then 0 else 4
  }

  lemma {:induction false} UpAligns(n: nat)
    ensures Up(n) == if n % 4 == 0 then n else n + 4 - n % 4
  {
    if n >= 4 {
      UpAligns(n - 4);
    }
  }

  lemma {:induction false} UpPads(n: nat)
    ensures Up(n) == n + Padding(n)
  {
    if n >= 4 {
      UpPads(n - 4);
    }
  }

  function ValueSize(value: Value): nat {
    match value
    case NoValue => 0
    case Binary(bytes) => |bytes|
    case Text(units) => 2 * (|units| + 1)
  }

  /** A block's length: its children's blocks end it. */
  function Size(t: Tree): nat
    decreases t
  {
    End(Start(|t.key|, ValueSize(t.value)), t.children)
  }

  /** Where the children of a block begin. */
  function Start(keySize: nat, valueSize: nat): nat {
    Up(6 + 2 * (keySize + 1)) + valueSize
  }

  function End(offset: nat, trees: seq<Tree>): nat
    decreases trees
  {
    if trees == [] then offset else End(Up(offset) + Size(trees[0]), trees[1..])
  }

  lemma {:induction false} SizeIsWritten(t: Tree)
    ensures |Write(t)| == Size(t)
    decreases t, 1
  {
    SizesAreWritten(t.children);
    EndIsWritten(Start(|t.key|, ValueSize(t.value)), t.children, WriteAll(t.children));
    SizeOfBlock(t, WriteAll(t.children));
  }

  lemma {:induction false} SizesAreWritten(trees: seq<Tree>)
    ensures HaveSizes(WriteAll(trees), trees)
    decreases trees
  {
    if trees != [] {
      SizeIsWritten(trees[0]);
      SizesAreWritten(trees[1..]);
      assert WriteAll(trees) == [Write(trees[0])] + WriteAll(trees[1..]);
    }
  }

  predicate HaveSizes(blocks: seq<Bytes>, trees: seq<Tree>) {
    |blocks| == |trees| && forall i | 0 <= i < |blocks| :: |blocks[i]| == Size(trees[i])
  }

  lemma SizeOfStart(key: seq<u16>, value: Value)
    ensures 6 + |KeyBytes(key)| + |ValueBytes(value)| == Start(|key|, ValueSize(value))
  {
    var zeros := KeySplit(key, []);
    UpPads(6 + 2 * (|key| + 1));
    if value.Text? {
      UnitBytesSize(value.units + [0]);
    }
  }

  lemma SizeOfBlock(t: Tree, blocks: seq<Bytes>)
    requires blocks == WriteAll(t.children)
    ensures var start := Start(|t.key|, ValueSize(t.value));
            |Write(t)| == start + |ChildBytes(start, blocks)|
  {
    SizeOfStart(t.key, t.value);
  }

  lemma {:induction false} EndIsWritten(offset: nat, trees: seq<Tree>, blocks: seq<Bytes>)
    requires HaveSizes(blocks, trees)
    ensures offset + |ChildBytes(offset, blocks)| == End(offset, trees)
    decreases |trees|
  {
    if trees != [] {
      EndIsWritten(Up(offset) + Size(trees[0]), trees[1..], blocks[1..]);
      EndOfFirst(offset, blocks[0], blocks[1..], Up(offset) + Size(trees[0]));
      assert [blocks[0]] + blocks[1..] == blocks;
    }
  }

  lemma EndOfFirst(offset: nat, first: Bytes, others: seq<Bytes>, next: nat)
    requires next == Up(offset) + |first|
    ensures offset + |ChildBytes(offset, [first] + others)| == next + |ChildBytes(next, others)|
  {
    UpPads(offset);
    FirstChild(offset, first, others);
  }

  lemma EndOfMore(offset: nat, t: Tree, others: seq<Tree>)
    ensures End(offset, [t] + others) == End(Up(offset) + Size(t), others)
  {
    assert ([t] + others)[1..] == others;
  }

  lemma LeafSize(key: string, text: seq<u16>)
    ensures Size(Leaf(key, text)) == Start(|key|, 2 * (|text| + 1))
  {
  }

  lemma EndOfThree(offset: nat, a: Tree, b: Tree, c: Tree)
    ensures End(offset, [a, b, c]) == Up(Up(Up(offset) + Size(a)) + Size(b)) + Size(c)
  {
    assert [a, b, c] == [a] + [b, c];
    EndOfMore(offset, a, [b, c]);
    EndOfTwo(Up(offset) + Size(a), b, c);
  }

  lemma EndOfFour(offset: nat, a: Tree, b: Tree, c: Tree, d: Tree)
    ensures End(offset, [a, b, c, d]) == Up(Up(Up(Up(offset) + Size(a)) + Size(b)) + Size(c)) + Size(d)
  {
    assert [a, b, c, d] == [a] + [b, c, d];
    EndOfMore(offset, a, [b, c, d]);
    EndOfThree(Up(offset) + Size(a), b, c, d);
  }

  lemma EndOfFive(offset: nat, a: Tree, b: Tree, c: Tree, d: Tree, e: Tree)
    ensures End(offset, [a, b, c, d, e])
         == Up(Up(Up(Up(Up(offset) + Size(a)) + Size(b)) + Size(c)) + Size(d)) + Size(e)
  {
    assert [a, b, c, d, e] == [a] + [b, c, d, e];
    EndOfMore(offset, a, [b, c, d, e]);
    EndOfFour(Up(offset) + Size(a), b, c, d, e);
  }

  lemma StringSizes(text: seq<u16>)
    ensures var s, n := Strings(text), |text|;
            && Size(s[0]) == 92 && Size(s[1]) == 34 + 2 * n && Size(s[2]) == 66 && Size(s[3]) == 66
            && Size(s[4]) == 38 + 2 * n
  {
    LeafSize("FileDescription", Ascii("CyberGuard endpoint agent"));
    LeafSize("FileVersion", text);
    LeafSize("OriginalFilename", Ascii("cg-agent.exe"));
    LeafSize("ProductName", Ascii("CyberGuard Agent"));
    LeafSize("ProductVersion", text);
    UpAligns(38);
    UpAligns(30);
    UpAligns(40);
    UpAligns(36);
  }

  /** Where five blocks of these sizes end. */
  function EndFrom(offset: nat, a: nat, b: nat, c: nat, d: nat, e: nat): nat {
    Up(Up(Up(Up(Up(offset) + a) + b) + c) + d) + e
  }

  lemma FiveFrom(offset: nat, s: seq<Tree>)
    requires |s| == 5
    ensures End(offset, s) == EndFrom(offset, Size(s[0]), Size(s[1]), Size(s[2]), Size(s[3]), Size(s[4]))
  {
    assert s == [s[0], s[1], s[2], s[3], s[4]];
    EndOfFive(offset, s[0], s[1], s[2], s[3], s[4]);
  }

  lemma FiveStrings(s: seq<Tree>, n: nat)
    requires |s| == 5 && Size(s[0]) == 92 && Size(s[1]) == 34 + 2 * n && Size(s[2]) == 66 && Size(s[3]) == 66
    requires Size(s[4]) == 38 + 2 * n
    ensures End(24, s) == 324 + 4 * n + (if n % 2 == 0 then 2 else 0)
  {
    FiveFrom(24, s);
    FiveEnds(24, n);
  }

  lemma TableSize(text: seq<u16>)
    ensures Size(Table(text)) == 324 + 4 * |text| + (if |text| % 2 == 0 then 2 else 0)
  {
    StringSizes(text);
    FiveStrings(Strings(text), |text|);
    NodeSize(Ascii("040904B0"), NoValue, Strings(text));
    UpAligns(24);
  }

  lemma NodeSize(key: seq<u16>, value: Value, children: seq<Tree>)
    ensures Size(Tree(key, value, children)) == End(Start(|key|, ValueSize(value)), children)
  {
  }

  lemma TwoEnd(offset: nat, n: nat)
    requires offset == 24
    ensures Up(Up(Up(offset) + 92) + (34 + 2 * n)) == 150 + 2 * n + (if n % 2 == 0 then 2 else 0)
  {
    UpAligns(offset);
    UpAligns(offset + 92);
    UpAligns(150 + 2 * n);
  }

  lemma NextTwoEnd(b: nat)
    requires b % 4 == 0
    ensures Up(Up(b + 66) + 66) == b + 136
  {
    UpAligns(b + 66);
    UpAligns(b + 134);
  }

  lemma FiveEnds(offset: nat, n: nat)
    requires offset == 24
    ensures EndFrom(offset, 92, 34 + 2 * n, 66, 66, 38 + 2 * n) == 324 + 4 * n + (if n % 2 == 0 then 2 else 0)
  {
    TwoEnd(offset, n);
    NextTwoEnd(150 + 2 * n + (if n % 2 == 0 then 2 else 0));
  }

  lemma StringInfoSize(text: seq<u16>)
    ensures Size(StringInfo(text)) == 360 + 4 * |text| + (if |text| % 2 == 0 then 2 else 0)
  {
    TableSize(text);
    EndOfOne(36, Table(text));
    NodeSize(Ascii("StringFileInfo"), NoValue, [Table(text)]);
    UpAligns(36);
  }

  lemma VarInfoSize()
    ensures Size(VarInfo()) == 68
  {
    NodeSize(Ascii("Translation"), Translation().value, []);
    EndOfOne(32, Translation());
    NodeSize(Ascii("VarFileInfo"), NoValue, [Translation()]);
    UpAligns(30);
    UpAligns(32);
  }

  lemma RootSize(fixed: Bytes, first: Tree, second: Tree, n: nat)
    requires |fixed| == 52 && Size(second) == 68
    requires Size(first) == 360 + 4 * n + if n % 2 == 0 then 2 else 0
    ensures Size(Tree(Ascii("VS_VERSION_INFO"), Binary(fixed), [first, second]))
         == 520 + 4 * n + if n % 2 == 0 then 4 else 0
  {
    NodeSize(Ascii("VS_VERSION_INFO"), Binary(fixed), [first, second]);
    UpAligns(38);
    EndOfTwo(92, first, second);
    RootEnd(Size(first), n);
  }

  lemma RootEnd(size: nat, n: nat)
    requires size == 360 + 4 * n + if n % 2 == 0 then 2 else 0
    ensures Up(Up(92) + size) + 68 == 520 + 4 * n + if n % 2 == 0 then 4 else 0
  {
    UpAligns(92);
    UpAligns(92 + size);
  }

  lemma VersionSize(x: u16, y: u16, z: u16, text: seq<u16>)
    ensures Size(VersionTree(x, y, z, text)) == 520 + 4 * |text| + (if |text| % 2 == 0 then 4 else 0)
  {
    DwordsSize(FixedInfo(x, y, z));
    StringInfoSize(text);
    VarInfoSize();
    RootSize(Dwords(FixedInfo(x, y, z)), StringInfo(text), VarInfo(), |text|);
  }

  lemma EndOfTwo(offset: nat, a: Tree, b: Tree)
    ensures End(offset, [a, b]) == Up(Up(offset) + Size(a)) + Size(b)
  {
    assert [a, b] == [a] + [b];
    EndOfMore(offset, a, [b]);
    EndOfOne(Up(offset) + Size(a), b);
  }

  lemma EndOfOne(offset: nat, t: Tree)
    ensures End(offset, [t]) == Up(offset) + Size(t)
  {
    EndOfMore(offset, t, []);
    assert [t] + [] == [t];
  }

  lemma {:induction false} DwordsSize(values: seq<nat>)
    ensures |Dwords(values)| == 4 * |values|
  {
    if values != [] {
      DwordsSize(values[1..]);
    }
  }

  // --------------------------------------------------------------- reading it back

  lemma AsciiHasNoZero(s: string)
    requires IsAscii(s)
    ensures 0 !in Ascii(s)
  {
    forall i | 0 <= i < |s| ensures Ascii(s)[i] != 0 {
      assert s[i] in s;
    }
  }

  lemma LeafIsTree(key: string, text: seq<u16>)
    requires IsAscii(key)
    ensures IsTree(Leaf(key, text))
  {
    AsciiHasNoZero(key);
  }

  lemma NodeIsTree(key: string, value: Value, children: seq<Tree>)
    requires IsAscii(key) && forall i | 0 <= i < |children| :: IsTree(children[i])
    ensures IsTree(Tree(Ascii(key), value, children))
  {
    AsciiHasNoZero(key);
  }

  lemma StringInfoIsTree(text: seq<u16>)
    ensures IsTree(StringInfo(text))
  {
    LeafIsTree("FileDescription", Ascii("CyberGuard endpoint agent"));
    LeafIsTree("FileVersion", text);
    LeafIsTree("OriginalFilename", Ascii("cg-agent.exe"));
    LeafIsTree("ProductName", Ascii("CyberGuard Agent"));
    LeafIsTree("ProductVersion", text);
    NodeIsTree("040904B0", NoValue, Strings(text));
    NodeIsTree("StringFileInfo", NoValue, [Table(text)]);
  }

  lemma VersionIsTree(x: u16, y: u16, z: u16, text: seq<u16>)
    ensures IsTree(VersionTree(x, y, z, text))
  {
    StringInfoIsTree(text);
    NodeIsTree("Translation", Translation().value, []);
    NodeIsTree("VarFileInfo", NoValue, [Translation()]);
    NodeIsTree("VS_VERSION_INFO", Binary(Dwords(FixedInfo(x, y, z))), [StringInfo(text), VarInfo()]);
  }

  /** The version's tree is recovered exactly while its text has at most 16253 units. */
  lemma VersionReadsBack(x: u16, y: u16, z: u16, text: seq<u16>)
    ensures var t := VersionTree(x, y, z, text);
            ReadsBack(t, Write(t)) <==> |text| <= 16253
  {
    var t := VersionTree(x, y, z, text);
    VersionIsTree(x, y, z, text);
    VersionSize(x, y, z, text);
    SizeIsWritten(t);
    ReadsBackExactly(t);
  }

  /** The fixed block holds the three numbers, for the file and for the product. */
  lemma NumbersReadBack(x: u16, y: u16, z: u16)
    ensures var b := Dwords(FixedInfo(x, y, z));
            && |b| == 52
            && At32(b[8..]) == At32(b[16..]) == x * 0x1_0000 + y
            && At32(b[12..]) == At32(b[20..]) == z * 0x1_0000
  {
    var values := FixedInfo(x, y, z);
    DwordsSize(values);
    DwordsReadBack(values, 2);
    DwordsReadBack(values, 3);
    DwordsReadBack(values, 4);
    DwordsReadBack(values, 5);
  }

  // ------------------------------------------------------------ the resource file

  datatype Resource = Resource(kind: u16, name: u16, flags: u16, language: u16, data: Bytes)

  function HeaderUnits(r: Resource): seq<u16> {
    [0xFFFF, r.kind, 0xFFFF, r.name, 0, 0, r.flags, r.language, 0, 0, 0, 0]
  }

  /** The sizes, then type and name as numbers, then flags and language. */
  function Header(r: Resource): Bytes {
    Le32(|r.data|) + Le32(32) + UnitBytes(HeaderUnits(r))
  }

  function Entry(r: Resource): Bytes {
    Header(r) + r.data + Zeros(Padding(|r.data|))
  }

  function File(resources: seq<Resource>): Bytes {
    if resources == [] then [] else Entry(resources[0]) + File(resources[1..])
  }

  const EMPTY := Resource(0, 0, 0, 0, [])

  function VersionEntry(data: Bytes): Resource {
    Resource(RT_VERSION, 1, 0x0030, LANGUAGE, data)
  }

  method AppendHeader(bytes: Bytes, r: Resource) returns (out: Bytes)
    ensures out == bytes + Header(r)
  {
    out := bytes + Le32(|r.data|);
    out := out + Le32(32);
    ghost var sizes := Le32(|r.data|) + Le32(32);
    Assoc(bytes, Le32(|r.data|), Le32(32));
    out := AppendUnits(out, HeaderUnits(r));
    Assoc(bytes, sizes, UnitBytes(HeaderUnits(r)));
  }

  /** The empty resource every file begins with, then the version. */
  method ResourceFile(x: u16, y: u16, z: u16, text: seq<u16>) returns (out: Bytes)
    ensures out == File([EMPTY, VersionEntry(Write(VersionTree(x, y, z, text)))])
  {
    var data := WriteVersion(x, y, z, text);
    out := AppendHeader([], EMPTY);
    Empty(Header(EMPTY));
    out := AppendHeader(out, VersionEntry(data));
    out := out + data;
    HeaderSize(EMPTY);
    HeaderSize(VersionEntry(data));
    PaddingOfFile(|data|);
    out := Pad4(out);
    FileOfTwo(Header(EMPTY), VersionEntry(data));
  }

  lemma HeaderSize(r: Resource)
    ensures |Header(r)| == 32
  {
    UnitBytesSize(HeaderUnits(r));
  }

  lemma PaddingOfFile(n: nat)
    ensures Padding(64 + n) == Padding(n)
  {
    PaddingAligns(64 + n);
    PaddingAligns(n);
  }

  lemma FileOfTwo(empty: Bytes, r: Resource)
    requires empty == Header(EMPTY)
    ensures empty + Header(r) + r.data + Zeros(Padding(|r.data|)) == File([EMPTY, r])
  {
    var zeros := Zeros(Padding(|r.data|));
    Assoc(empty, Header(r), r.data);
    Assoc(empty, Header(r) + r.data, zeros);
    assert [EMPTY, r][1..] == [r] && [r][1..] == [];
    assert Entry(EMPTY) == empty;
    Empty(Entry(r));
    assert File([r]) == Entry(r);
  }

  /** A reader that follows the two sizes of each header. */
  function ReadFile(s: Bytes): Option<seq<Resource>>
    decreases |s|
  {
    if s == [] then Some([])
    else if |s| < 32 || At32(s[4..]) != 32 then None
    else
      var end, u := 32 + At32(s), Units(s[8..], 12);
      if u[0] != 0xFFFF || u[2] != 0xFFFF || end + Padding(At32(s)) > |s| then None
      else
        var others := ReadFile(s[end + Padding(At32(s))..]);
        if others.None? then None
        else Some([Resource(u[1], u[3], u[6], u[7], s[32..end])] + others.value)
  }

  lemma {:induction false} FileReadsBack(resources: seq<Resource>)
    requires forall i | 0 <= i < |resources| :: |resources[i].data| < 0x1_0000_0000
    ensures ReadFile(File(resources)) == Some(resources)
    decreases |resources|
  {
    if resources != [] {
      var r, others := resources[0], File(resources[1..]);
      FileReadsBack(resources[1..]);
      EntryReadsBack(r, others);
      assert [r] + resources[1..] == resources;
    }
  }

  lemma HeaderFields(a: Bytes, b: Bytes, units: Bytes, rest: Bytes)
    requires |a| == |b| == 4
    ensures var s := a + b + units + rest;
            s == a + (b + units + rest) && s[4..] == b + (units + rest) && s[8..] == units + rest
  {
  }

  lemma DataParts(header: Bytes, data: Bytes, zeros: Bytes, rest: Bytes)
    ensures var s, end := header + data + zeros + rest, |header| + |data|;
            && s == header + (data + zeros + rest) && s[|header|..end] == data && s[end + |zeros|..] == rest
  {
  }

  lemma EntryReadsBack(r: Resource, rest: Bytes)
    requires |r.data| < 0x1_0000_0000
    ensures var s, n := Entry(r) + rest, |r.data|;
            && |s| >= 32 + n + Padding(n) && At32(s) == n && At32(s[4..]) == 32
            && Units(s[8..], 12) == HeaderUnits(r)
            && s[32..32 + n] == r.data && s[32 + n + Padding(n)..] == rest
  {
    var units, zeros := UnitBytes(HeaderUnits(r)), Zeros(Padding(|r.data|));
    UnitBytesSize(HeaderUnits(r));
    var others := r.data + zeros + rest;
    DataParts(Header(r), r.data, zeros, rest);
    HeaderFields(Le32(|r.data|), Le32(32), units, others);
    Le32ReadsBack(|r.data|, Le32(32) + units + others);
    Le32ReadsBack(32, units + others);
    UnitsReadBack(HeaderUnits(r), others);
  }
}
