/** LLVM stack maps, version 3: their byte layout, the walk that indexes the records,
    and the search for a return address. */
module StackMap {

  type Byte = b: nat | b < 256

  datatype Location = Location(kind: Byte, size: nat, reg: nat, offset: nat)

  datatype LiveOut = LiveOut(reg: nat, size: Byte)

  datatype Record = Record(id: nat, instrOffset: nat, flags: nat, locations: seq<Location>, liveOuts: seq<LiveOut>)

  datatype Function = Function(addr: nat, stackSize: nat, records: seq<Record>)

  datatype Section = Section(version: Byte, functions: seq<Function>, constants: seq<nat>)

  // ----- little-endian numbers -----

  function Pow256(w: nat): (p: nat)
    ensures p > 0
  {
    if w == 0 then 1 else 256 * Pow256(w - 1)
  }

  /** The low `w` bytes of a number. */
  function LE(n: nat, w: nat): (s: seq<Byte>)
    ensures |s| == w
  {
    seq(w, i requires 0 <= i < w => n / Pow256(i) % 256)
  }

  function Number(s: seq<Byte>): nat {
    if s == [] then 0 else s[0] + 256 * Number(s[1..])
  }

  function Read(bytes: seq<Byte>, off: nat, w: nat): nat
    requires off + w <= |bytes|
  {
    Number(bytes[off..off + w])
  }

  lemma ProductMonotone(d: nat, a: int, b: int)
    requires a <= b
    ensures d * a <= d * b
  {
    assert d * b == d * a + d * (b - a);
  }

  lemma QuotientIs(n: nat, d: nat, q: nat, r: nat)
    requires n == d * q + r && r < d
    ensures n / d == q
  {
    var q' := n / d;
    assert d * q' <= n < d * q' + d;
    if q < q' {
      ProductMonotone(d, q + 1, q');
    } else if q > q' {
      ProductMonotone(d, q' + 1, q);
    }
  }

  lemma DivTwice(n: nat, p: nat)
    requires p > 0
    ensures n / (256 * p) == n / 256 / p
  {
    var q := n / 256;
    assert q == p * (q / p) + q % p;
    var r := 256 * (q % p) + n % 256;
    assert n == 256 * q + n % 256;
    assert 256 * (p * (q / p)) == 256 * p * (q / p);
    assert q % p <= p - 1;
    QuotientIs(n, 256 * p, q / p, r);
  }

  lemma LENext(n: nat, w: nat)
    requires w > 0
    ensures LE(n, w) == [n % 256] + LE(n / 256, w - 1)
  {
    forall i | 0 < i < w ensures LE(n, w)[i] == LE(n / 256, w - 1)[i - 1] {
      DivTwice(n, Pow256(i - 1));
    }
  }

  lemma {:induction false} NumberOfLE(n: nat, w: nat)
    requires n < Pow256(w)
    ensures Number(LE(n, w)) == n
    decreases w
  {
    if w > 0 {
      LENext(n, w);
      assert LE(n, w)[1..] == LE(n / 256, w - 1);
      NumberOfLE(n / 256, w - 1);
    }
  }

  /** The section holds `x` at the offset. */
  ghost predicate Holds(bytes: seq<Byte>, off: nat, x: seq<Byte>) {
    off + |x| <= |bytes| && bytes[off..off + |x|] == x
  }

  lemma HoldsSplit(bytes: seq<Byte>, off: nat, a: seq<Byte>, b: seq<Byte>)
    requires Holds(bytes, off, a + b)
    ensures Holds(bytes, off, a) && Holds(bytes, off + |a|, b)
  {
    assert bytes[off..off + |a|] == bytes[off..off + |a + b|][..|a|];
    assert bytes[off + |a|..off + |a| + |b|] == bytes[off..off + |a + b|][|a|..];
  }

  /** Reading a number that fits its width gives it back. */
  lemma ReadBack(bytes: seq<Byte>, off: nat, n: nat, w: nat)
    requires Holds(bytes, off, LE(n, w)) && n < Pow256(w)
    ensures off + w <= |bytes| && Read(bytes, off, w) == n
  {
    NumberOfLE(n, w);
  }

  // ----- encoding -----

  function Pad(n: nat): (s: seq<Byte>)
    ensures |s| == n
  {
    if n == 0 then [] else [0] + Pad(n - 1)
  }

  function EncodeLocation(l: Location): (s: seq<Byte>)
    ensures |s| == 12
  {
    [l.kind, 0] + LE(l.size, 2) + LE(l.reg, 2) + LE(0, 2) + LE(l.offset, 4)
  }

  function EncodeLocations(ls: seq<Location>): (s: seq<Byte>)
    ensures |s| == 12 * |ls|
  {
    if ls == [] then [] else EncodeLocation(ls[0]) + EncodeLocations(ls[1..])
  }

  function EncodeLiveOuts(ls: seq<LiveOut>): (s: seq<Byte>)
    ensures |s| == 4 * |ls|
  {
    if ls == [] then [] else LE(ls[0].reg, 2) + [0, ls[0].size] + EncodeLiveOuts(ls[1..])
  }

  /** Locations are padded to a multiple of 8. */
  function LocationSize(n: nat): nat {
    12 * n + if 12 * n % 8 == 4 then 4 else 0
  }

  /** So are padding, count and live-outs together. */
  function LiveOutSize(n: nat): nat {
    4 + 4 * n + if (4 * n + 4) % 8 == 4 then 4 else 0
  }

  function SizeOf(r: Record): nat {
    16 + LocationSize(|r.locations|) + LiveOutSize(|r.liveOuts|)
  }

  lemma LocationsAligned(n: nat)
    ensures LocationSize(n) % 8 == 0
  {
    var h := n / 2;
    if n == 2 * h {
      assert 12 * n == 8 * (3 * h);
    } else {
      assert 12 * n == 8 * (3 * h + 1) + 4;
      assert LocationSize(n) == 8 * (3 * h + 2);
    }
  }

  lemma LiveOutsAligned(n: nat)
    ensures LiveOutSize(n) % 8 == 0
  {
    var h := n / 2;
    if n == 2 * h {
      assert 4 * n + 4 == 8 * h + 4;
      assert LiveOutSize(n) == 8 * (h + 1);
    } else {
      assert 4 * n + 4 == 8 * (h + 1);
    }
  }

  lemma SizeAligned(r: Record)
    ensures SizeOf(r) % 8 == 0
  {
    LocationsAligned(|r.locations|);
    LiveOutsAligned(|r.liveOuts|);
    SumAligned(16, LocationSize(|r.locations|));
    SumAligned(16 + LocationSize(|r.locations|), LiveOutSize(|r.liveOuts|));
  }

  lemma SumAligned(a: nat, b: nat)
    requires a % 8 == 0 && b % 8 == 0
    ensures (a + b) % 8 == 0
  {
  }

  function EncodeRecordHead(r: Record): (s: seq<Byte>)
    ensures |s| == 16
  {
    LE(r.id, 8) + LE(r.instrOffset, 4) + LE(r.flags, 2) + LE(|r.locations|, 2)
  }

  function LocationBytes(r: Record): (s: seq<Byte>)
    ensures |s| == LocationSize(|r.locations|)
  {
    EncodeLocations(r.locations) + Pad(if 12 * |r.locations| % 8 == 4 then 4 else 0)
  }

  function LiveOutBytes(r: Record): (s: seq<Byte>)
    ensures |s| == LiveOutSize(|r.liveOuts|)
  {
    LE(0, 2)
    + (LE(|r.liveOuts|, 2)
       + (EncodeLiveOuts(r.liveOuts) + Pad(if (4 * |r.liveOuts| + 4) % 8 == 4 then 4 else 0)))
  }

  function EncodeRecord(r: Record): (s: seq<Byte>)
    ensures |s| == SizeOf(r)
  {
    EncodeRecordHead(r) + (LocationBytes(r) + LiveOutBytes(r))
  }

  function EncodeRecords(rs: seq<Record>): seq<Byte> {
    if rs == [] then [] else EncodeRecord(rs[0]) + EncodeRecords(rs[1..])
  }

  function EncodeFunction(f: Function): (s: seq<Byte>)
    ensures |s| == 24
  {
    LE(f.addr, 8) + (LE(f.stackSize, 8) + LE(|f.records|, 8))
  }

  function EncodeFunctions(fs: seq<Function>): (s: seq<Byte>)
    ensures |s| == 24 * |fs|
  {
    if fs == [] then [] else EncodeFunction(fs[0]) + EncodeFunctions(fs[1..])
  }

  function EncodeConstants(cs: seq<nat>): (s: seq<Byte>)
    ensures |s| == 8 * |cs|
  {
    if cs == [] then [] else LE(cs[0], 8) + EncodeConstants(cs[1..])
  }

  function AllRecords(fs: seq<Function>): seq<Record> {
    if fs == [] then [] else AllRecords(fs[..|fs| - 1]) + fs[|fs| - 1].records
  }

  function EncodeHeader(s: Section): (r: seq<Byte>)
    ensures |r| == 16
  {
    [s.version, 0, 0, 0] + (LE(|s.functions|, 4) + (LE(|s.constants|, 4) + LE(|AllRecords(s.functions)|, 4)))
  }

  function Encode(s: Section): seq<Byte> {
    EncodeHeader(s)
    + (EncodeFunctions(s.functions) + (EncodeConstants(s.constants) + EncodeRecords(AllRecords(s.functions))))
  }

  /** Every number fits the width of its field. */
  ghost predicate Fits(s: Section) {
    && |s.functions| < Pow256(4) && |s.constants| < Pow256(4) && |AllRecords(s.functions)| < Pow256(4)
    && (forall f :: f in s.functions ==> f.addr < Pow256(8) && |f.records| < Pow256(8))
    && (forall r :: r in AllRecords(s.functions) ==> RecordFits(r))
  }

  ghost predicate RecordFits(r: Record) {
    r.instrOffset < Pow256(4) && |r.locations| < Pow256(2) && |r.liveOuts| < Pow256(2)
  }

  // ----- the record walk -----

  ghost predicate InBounds(bytes: seq<Byte>, off: nat) {
    && off + 16 <= |bytes|
    && LiveOutsAt(bytes, off) + 4 <= |bytes|
  }

  /** Where the two bytes of padding before the live-out count start. */
  function LiveOutsAt(bytes: seq<Byte>, off: nat): nat
    requires off + 16 <= |bytes|
  {
    var n := Read(bytes, off + 14, 2);
    off + 16 + 12 * n + (if 12 * n % 8 == 4 then 4 else 0)
  }

  function AdvanceRecord(bytes: seq<Byte>, off: nat): nat
    requires InBounds(bytes, off)
  {
    var p := LiveOutsAt(bytes, off) + 2;
    var n := Read(bytes, p, 2);
    p + 2 + 4 * n + (if (4 * n + 4) % 8 == 4 then 4 else 0)
  }

  /** From a record the walk advances over exactly that record. */
  lemma AdvanceOverRecord(bytes: seq<Byte>, off: nat, r: Record)
    requires Holds(bytes, off, EncodeRecord(r)) && RecordFits(r)
    ensures InBounds(bytes, off)
    ensures Read(bytes, off + 8, 4) == r.instrOffset && Read(bytes, off + 14, 2) == |r.locations|
    ensures AdvanceRecord(bytes, off) == off + SizeOf(r)
  {
    HoldsSplit(bytes, off, EncodeRecordHead(r), LocationBytes(r) + LiveOutBytes(r));
    HoldsSplit(bytes, off + 16, LocationBytes(r), LiveOutBytes(r));
    HeadReadBack(bytes, off, r);
    LiveOutsReadBack(bytes, off + 16 + LocationSize(|r.locations|), r);
  }

  lemma LiveOutsReadBack(bytes: seq<Byte>, off: nat, r: Record)
    requires Holds(bytes, off, LiveOutBytes(r)) && RecordFits(r)
    ensures off + 4 <= |bytes| && Read(bytes, off + 2, 2) == |r.liveOuts|
  {
    var tail := EncodeLiveOuts(r.liveOuts) + Pad(if (4 * |r.liveOuts| + 4) % 8 == 4 then 4 else 0);
    HoldsSplit(bytes, off, LE(0, 2), LE(|r.liveOuts|, 2) + tail);
    HoldsSplit(bytes, off + 2, LE(|r.liveOuts|, 2), tail);
    ReadBack(bytes, off + 2, |r.liveOuts|, 2);
  }

  lemma HeadReadBack(bytes: seq<Byte>, off: nat, r: Record)
    requires Holds(bytes, off, EncodeRecordHead(r)) && RecordFits(r)
    ensures off + 16 <= |bytes|
    ensures Read(bytes, off + 8, 4) == r.instrOffset && Read(bytes, off + 14, 2) == |r.locations|
  {
    HoldsSplit(bytes, off, LE(r.id, 8) + LE(r.instrOffset, 4) + LE(r.flags, 2), LE(|r.locations|, 2));
    HoldsSplit(bytes, off, LE(r.id, 8) + LE(r.instrOffset, 4), LE(r.flags, 2));
    HoldsSplit(bytes, off, LE(r.id, 8), LE(r.instrOffset, 4));
    ReadBack(bytes, off + 8, r.instrOffset, 4);
    ReadBack(bytes, off + 14, |r.locations|, 2);
  }

  /** Bytes before the `k`-th record of the list. */
  ghost function Before(rs: seq<Record>, k: nat): nat
    requires k <= |rs|
  {
    if k == 0 then 0 else Before(rs, k - 1) + SizeOf(rs[k - 1])
  }

  lemma {:induction false} HoldsRecord(bytes: seq<Byte>, off: nat, rs: seq<Record>, k: nat)
    requires Holds(bytes, off, EncodeRecords(rs)) && k < |rs|
    ensures Holds(bytes, off + Before(rs, k), EncodeRecord(rs[k]))
    decreases k
  {
    HoldsSplit(bytes, off, EncodeRecord(rs[0]), EncodeRecords(rs[1..]));
    if k > 0 {
      HoldsRecord(bytes, off + SizeOf(rs[0]), rs[1..], k - 1);
      BeforeShift(rs, k);
      assert rs[1..][k - 1] == rs[k];
      assert off + SizeOf(rs[0]) + Before(rs[1..], k - 1) == off + Before(rs, k);
    } else {
      assert off + Before(rs, 0) == off;
    }
  }

  lemma {:induction false} BeforeShift(rs: seq<Record>, k: nat)
    requires 0 < k <= |rs|
    ensures Before(rs, k) == SizeOf(rs[0]) + Before(rs[1..], k - 1)
    decreases k
  {
    if k > 1 {
      BeforeShift(rs, k - 1);
      assert rs[1..][k - 2] == rs[k - 1];
    }
  }

  lemma {:induction false} HoldsFunction(bytes: seq<Byte>, off: nat, fs: seq<Function>, i: nat)
    requires Holds(bytes, off, EncodeFunctions(fs)) && i < |fs|
    ensures Holds(bytes, off + 24 * i, EncodeFunction(fs[i]))
    decreases i
  {
    HoldsSplit(bytes, off, EncodeFunction(fs[0]), EncodeFunctions(fs[1..]));
    if i > 0 {
      HoldsFunction(bytes, off + 24, fs[1..], i - 1);
    }
  }

  lemma FunctionReadBack(bytes: seq<Byte>, off: nat, f: Function)
    requires Holds(bytes, off, EncodeFunction(f)) && f.addr < Pow256(8) && |f.records| < Pow256(8)
    ensures off + 24 <= |bytes| && Read(bytes, off, 8) == f.addr && Read(bytes, off + 16, 8) == |f.records|
  {
    HoldsSplit(bytes, off, LE(f.addr, 8), LE(f.stackSize, 8) + LE(|f.records|, 8));
    HoldsSplit(bytes, off + 8, LE(f.stackSize, 8), LE(|f.records|, 8));
    ReadBack(bytes, off, f.addr, 8);
    ReadBack(bytes, off + 16, |f.records|, 8);
  }

  lemma HeaderReadBack(bytes: seq<Byte>, s: Section)
    requires bytes == Encode(s) && Fits(s)
    ensures |bytes| >= 16 && bytes[0] == s.version
    ensures Read(bytes, 4, 4) == |s.functions| && Read(bytes, 8, 4) == |s.constants|
        && Read(bytes, 12, 4) == |AllRecords(s.functions)|
    ensures Holds(bytes, 16, EncodeFunctions(s.functions))
    ensures Holds(bytes, RecordsStart(s), EncodeRecords(AllRecords(s.functions)))
  {
    var fs, cs, rs := EncodeFunctions(s.functions), EncodeConstants(s.constants),
        EncodeRecords(AllRecords(s.functions));
    assert bytes[0..|bytes|] == bytes;
    HoldsSplit(bytes, 0, EncodeHeader(s), fs + (cs + rs));
    HoldsSplit(bytes, 16, fs, cs + rs);
    HoldsSplit(bytes, 16 + |fs|, cs, rs);
    CountsReadBack(bytes, s);
  }

  lemma CountsReadBack(bytes: seq<Byte>, s: Section)
    requires Holds(bytes, 0, EncodeHeader(s)) && Fits(s)
    ensures |bytes| >= 16 && bytes[0] == s.version
    ensures Read(bytes, 4, 4) == |s.functions| && Read(bytes, 8, 4) == |s.constants|
        && Read(bytes, 12, 4) == |AllRecords(s.functions)|
  {
    var nf, nc, nr := LE(|s.functions|, 4), LE(|s.constants|, 4), LE(|AllRecords(s.functions)|, 4);
    HoldsSplit(bytes, 0, [s.version, 0, 0, 0], nf + (nc + nr));
    HoldsSplit(bytes, 4, nf, nc + nr);
    HoldsSplit(bytes, 8, nc, nr);
    ReadBack(bytes, 4, |s.functions|, 4);
    ReadBack(bytes, 8, |s.constants|, 4);
    ReadBack(bytes, 12, |AllRecords(s.functions)|, 4);
    assert bytes[0] == bytes[0..4][0];
  }

  ghost function RecordsStart(s: Section): nat {
    16 + 24 * |s.functions| + 8 * |s.constants|
  }

  /** Where record `k` of the section starts. */
  ghost function RecordPlace(s: Section, k: nat): nat
    requires k <= |AllRecords(s.functions)|
  {
    RecordsStart(s) + Before(AllRecords(s.functions), k)
  }

  // ----- the table -----

  /** The code address after the call, and where the record and its locations lie. */
  datatype Entry = Entry(pc: nat, record: nat, locations: nat)

  /** Pointers wrap around at 64 bits. */
  function CodeAddress(addr: nat, offset: nat): nat {
    (addr + offset) % 0x1_0000_0000_0000_0000
  }

  datatype Lookup = Found(entry: Entry) | NotFound

  /** Records of the functions before the `i`-th. */
  ghost function FirstOf(fs: seq<Function>, i: nat): nat
    requires i <= |fs|
  {
    |AllRecords(fs[..i])|
  }

  lemma FirstOfNext(fs: seq<Function>, i: nat)
    requires i < |fs|
    ensures FirstOf(fs, i + 1) == FirstOf(fs, i) + |fs[i].records|
  {
    assert fs[..i + 1][..i] == fs[..i];
  }

  lemma {:induction false} RecordOf(fs: seq<Function>, i: nat, j: nat)
    requires i < |fs| && j < |fs[i].records|
    ensures FirstOf(fs, i) + j < |AllRecords(fs)| && AllRecords(fs)[FirstOf(fs, i) + j] == fs[i].records[j]
    decreases |fs|
  {
    var n := |fs| - 1;
    if i == n {
      assert fs[..i] == fs[..n];
    } else {
      RecordOf(fs[..n], i, j);
      assert fs[..n][..i] == fs[..i];
    }
  }

  /** The entry of record `j` of function `i`. */
  ghost function EntryOf(s: Section, i: nat, j: nat): Entry
    requires i < |s.functions| && j < |s.functions[i].records|
  {
    RecordOf(s.functions, i, j);
    var off := RecordPlace(s, FirstOf(s.functions, i) + j);
    Entry(CodeAddress(s.functions[i].addr, s.functions[i].records[j].instrOffset), off, off + 16)
  }

  ghost predicate Tabulates(s: Section, table: seq<Entry>) {
    && |table| == |AllRecords(s.functions)|
    && forall i, j {:trigger EntryIs(s, table, i, j)} :: 0 <= i < |s.functions| && 0 <= j < |s.functions[i].records|
        ==> EntryIs(s, table, i, j)
  }

  ghost predicate EntryIs(s: Section, table: seq<Entry>, i: nat, j: nat)
    requires i < |s.functions| && j < |s.functions[i].records|
  {
    FirstOf(s.functions, i) + j < |table| && table[FirstOf(s.functions, i) + j] == EntryOf(s, i, j)
  }

  /** Entries of the records walked so far: all of the first `i` functions, `j` of the next. */
  ghost predicate Filled(s: Section, table: seq<Entry>, i: nat, j: nat) {
    forall a, b {:trigger EntryIs(s, table, a, b)} ::
      0 <= a < |s.functions| && 0 <= b < |s.functions[a].records| && (a < i || (a == i && b < j)) ==>
        EntryIs(s, table, a, b)
  }

  lemma FilledMore(s: Section, before: seq<Entry>, after: seq<Entry>, i: nat, j: nat)
    requires i < |s.functions| && j < |s.functions[i].records| && Filled(s, before, i, j)
    requires FirstOf(s.functions, i) + j < |before| && after == before[FirstOf(s.functions, i) + j := EntryOf(s, i, j)]
    ensures Filled(s, after, i, j + 1)
  {
    forall a: nat, b: nat | a < |s.functions| && b < |s.functions[a].records| && (a < i || (a == i && b < j + 1))
      ensures EntryIs(s, after, a, b)
    {
      if a < i || b < j {
        assert EntryIs(s, before, a, b);
        if a < i {
          FirstOfMonotone(s.functions, a + 1, i);
          FirstOfNext(s.functions, a);
        }
      }
    }
  }

  lemma {:induction false} FirstOfMonotone(fs: seq<Function>, a: nat, b: nat)
    requires a <= b <= |fs|
    ensures FirstOf(fs, a) <= FirstOf(fs, b)
    decreases b
  {
    if a < b {
      FirstOfMonotone(fs, a, b - 1);
      FirstOfNext(fs, b - 1);
    }
  }

  /** Where the walk stands and what it reads there. */
  lemma AtRecord(bytes: seq<Byte>, s: Section, i: nat, j: nat)
    requires Holds(bytes, RecordsStart(s), EncodeRecords(AllRecords(s.functions))) && Fits(s)
    requires i < |s.functions| && j < |s.functions[i].records|
    ensures FirstOf(s.functions, i) + j < |AllRecords(s.functions)|
    ensures var k := FirstOf(s.functions, i) + j; var off := RecordPlace(s, k);
      && InBounds(bytes, off) && Read(bytes, off + 8, 4) == s.functions[i].records[j].instrOffset
      && AdvanceRecord(bytes, off) == RecordPlace(s, k + 1)
  {
    RecordOf(s.functions, i, j);
    ReadAt(bytes, RecordsStart(s), AllRecords(s.functions), FirstOf(s.functions, i) + j);
  }

  lemma ReadAt(bytes: seq<Byte>, start: nat, rs: seq<Record>, k: nat)
    requires Holds(bytes, start, EncodeRecords(rs)) && k < |rs| && forall r :: r in rs ==> RecordFits(r)
    ensures var off := start + Before(rs, k);
      && InBounds(bytes, off) && Read(bytes, off + 8, 4) == rs[k].instrOffset
      && AdvanceRecord(bytes, off) == start + Before(rs, k + 1)
  {
    HoldsRecord(bytes, start, rs, k);
    assert rs[k] in rs;
    AdvanceOverRecord(bytes, start + Before(rs, k), rs[k]);
  }

  lemma AtFunction(bytes: seq<Byte>, s: Section, i: nat)
    requires Holds(bytes, 16, EncodeFunctions(s.functions)) && Fits(s) && i < |s.functions|
    ensures 16 + 24 * i + 24 <= |bytes| && Read(bytes, 16 + 24 * i, 8) == s.functions[i].addr
    ensures Read(bytes, 16 + 24 * i + 16, 8) == |s.functions[i].records|
  {
    HoldsFunction(bytes, 16, s.functions, i);
    assert s.functions[i] in s.functions;
    FunctionReadBack(bytes, 16 + 24 * i, s.functions[i]);
  }

  ghost predicate FunctionThere(bytes: seq<Byte>, s: Section, i: nat) {
    i < |s.functions| ==>
      && 16 + 24 * i + 24 <= |bytes| && Read(bytes, 16 + 24 * i, 8) == s.functions[i].addr
      && Read(bytes, 16 + 24 * i + 16, 8) == |s.functions[i].records|
  }

  ghost predicate RecordThere(bytes: seq<Byte>, s: Section, i: nat, j: nat) {
    i < |s.functions| && j < |s.functions[i].records| ==>
      var k := FirstOf(s.functions, i) + j;
      && k < |AllRecords(s.functions)|
      && InBounds(bytes, RecordPlace(s, k))
      && Read(bytes, RecordPlace(s, k) + 8, 4) == s.functions[i].records[j].instrOffset
      && AdvanceRecord(bytes, RecordPlace(s, k)) == RecordPlace(s, k + 1)
  }

  /** Every function and record reads back from its place. */
  ghost predicate Readable(bytes: seq<Byte>, s: Section) {
    && (forall i {:trigger FunctionThere(bytes, s, i)} :: FunctionThere(bytes, s, i))
    && (forall i, j {:trigger RecordThere(bytes, s, i, j)} :: RecordThere(bytes, s, i, j))
  }

  lemma EncodedIsReadable(bytes: seq<Byte>, s: Section)
    requires bytes == Encode(s) && Fits(s)
    ensures Readable(bytes, s)
  {
    HeaderReadBack(bytes, s);
    forall i: nat ensures FunctionThere(bytes, s, i) {
      if i < |s.functions| {
        AtFunction(bytes, s, i);
      }
    }
    forall i: nat, j: nat ensures RecordThere(bytes, s, i, j) {
      if i < |s.functions| && j < |s.functions[i].records| {
        AtRecord(bytes, s, i, j);
      }
    }
  }

  /** What is read where the walk stands is the record's entry and the next record's place. */
  lemma WalkReads(bytes: seq<Byte>, s: Section, i: nat, j: nat)
    requires Readable(bytes, s) && i < |s.functions| && j < |s.functions[i].records|
    ensures 16 + 24 * i + 24 <= |bytes| && FirstOf(s.functions, i) + j < |AllRecords(s.functions)|
    ensures var off := RecordPlace(s, FirstOf(s.functions, i) + j);
      && InBounds(bytes, off)
      && Entry(CodeAddress(Read(bytes, 16 + 24 * i, 8), Read(bytes, off + 8, 4)), off, off + 16) == EntryOf(s, i, j)
      && AdvanceRecord(bytes, off) == RecordPlace(s, FirstOf(s.functions, i) + j + 1)
  {
    assert FunctionThere(bytes, s, i) && RecordThere(bytes, s, i, j);
  }

  /** The state of the walk before record `j` of function `i`. */
  ghost predicate Walked(s: Section, table: seq<Entry>, i: nat, j: nat, index: nat, current: nat) {
    && i <= |s.functions| && (i < |s.functions| ==> j <= |s.functions[i].records|) && (i == |s.functions| ==> j == 0)
    && |table| == |AllRecords(s.functions)| && index == FirstOf(s.functions, i) + j <= |table|
    && current == RecordPlace(s, index)
    && Filled(s, table, i, j)
  }

  lemma WalkStarts(s: Section, table: seq<Entry>)
    requires |table| == |AllRecords(s.functions)|
    ensures Walked(s, table, 0, 0, 0, RecordsStart(s))
  {
    assert s.functions[..0] == [];
  }

  /** One record on: its entry is written, and the walk stands on the next. */
  lemma WalkStep(s: Section, table: seq<Entry>, i: nat, j: nat, index: nat, current: nat, next: nat)
    requires Walked(s, table, i, j, index, current) && i < |s.functions| && j < |s.functions[i].records|
    requires index < |table| && next == RecordPlace(s, index + 1)
    ensures Walked(s, table[index := EntryOf(s, i, j)], i, j + 1, index + 1, next)
  {
    FilledMore(s, table, table[index := EntryOf(s, i, j)], i, j);
  }

  /** Past its last record, the walk stands before the next function's first. */
  lemma WalkNext(s: Section, table: seq<Entry>, i: nat, index: nat, current: nat)
    requires i < |s.functions| && Walked(s, table, i, |s.functions[i].records|, index, current)
    ensures Walked(s, table, i + 1, 0, index, current)
  {
    FirstOfNext(s.functions, i);
    forall a: nat, b: nat | a < |s.functions| && b < |s.functions[a].records| && a < i + 1
      ensures EntryIs(s, table, a, b)
    {
    }
  }

  lemma WalkEnds(s: Section, table: seq<Entry>, index: nat, current: nat)
    requires Walked(s, table, |s.functions|, 0, index, current)
    ensures Tabulates(s, table)
  {
  }

  /** The inner loop: the entries of function `i`. */
  method FillFunction(bytes: seq<Byte>, table: array<Entry>, i: nat, index: nat, current: nat, ghost s: Section)
    returns (index': nat, current': nat)
    requires Readable(bytes, s) && i < |s.functions| && Walked(s, table[..], i, 0, index, current)
    modifies table
    ensures Walked(s, table[..], i + 1, 0, index', current')
  {
    assert FunctionThere(bytes, s, i);
    index', current' := index, current;
    for j := 0 to Read(bytes, 16 + 24 * i + 16, 8)
      invariant Walked(s, table[..], i, j, index', current')
    {
      WalkReads(bytes, s, i, j);
      WalkStep(s, table[..], i, j, index', current', AdvanceRecord(bytes, current'));
      var pc := CodeAddress(Read(bytes, 16 + 24 * i, 8), Read(bytes, current' + 8, 4));
      table[index'] := Entry(pc, current', current' + 16);
      index' := index' + 1;
      current' := AdvanceRecord(bytes, current');
    }
    WalkNext(s, table[..], i, index', current');
  }

  /** The table of a section that some stack map encodes to: one entry a record, in order. */
  method BuildTable(bytes: seq<Byte>, ghost s: Section) returns (table: array<Entry>)
    requires bytes == Encode(s) && Fits(s)
    ensures fresh(table) && Tabulates(s, table[..])
  {
    HeaderReadBack(bytes, s);
    EncodedIsReadable(bytes, s);
    var numFunctions, numConstants, numRecords := Read(bytes, 4, 4), Read(bytes, 8, 4), Read(bytes, 12, 4);
    table := new Entry[numRecords](i => Entry(0, 0, 0));
    var current, index := 16 + 24 * numFunctions + 8 * numConstants, 0;
    WalkStarts(s, table[..]);
    for i := 0 to numFunctions
      invariant fresh(table) && Walked(s, table[..], i, 0, index, current)
    {
      index, current := FillFunction(bytes, table, i, index, current, s);
    }
    WalkEnds(s, table[..], index, current);
  }

  // ----- the search -----

  ghost predicate StrictlyIncreasing(table: seq<Entry>) {
    forall i, j :: 0 <= i < j < |table| ==> table[i].pc < table[j].pc
  }

  ghost predicate Lists(table: seq<Entry>, pc: nat) {
    exists i :: 0 <= i < |table| && table[i].pc == pc
  }

  /** Whatever the order, only an entry of the address is returned; in strictly increasing order
      it is returned if and only if there is one, and then it is the only one. */
  method LookupEntry(table: array<Entry>, pc: nat) returns (r: Lookup)
    ensures r.Found? ==> r.entry in table[..] && r.entry.pc == pc
    ensures StrictlyIncreasing(table[..]) ==> (r.Found? <==> Lists(table[..], pc))
    ensures StrictlyIncreasing(table[..]) && r.Found? ==> forall e :: e in table[..] && e.pc == pc ==> e == r.entry
  {
    var low, high := 0, table.Length;
    while low < high
      invariant 0 <= low <= high <= table.Length
      invariant StrictlyIncreasing(table[..]) ==> forall i ::
          0 <= i < table.Length && (i < low || high <= i) ==> table[i].pc != pc
    {
      var mid := low + (high - low) / 2;
      var entry := table[mid];
      if entry.pc == pc {
        assert table[..][mid] == entry;
        return Found(entry);
      }
      assert forall i :: 0 <= i < table.Length ==> table[..][i] == table[i];
      if pc < entry.pc {
        high := mid;
      } else {
        low := mid + 1;
      }
    }
    r := NotFound;
  }

  /** Records start at multiples of 8. */
  lemma {:induction false} RecordsAligned(s: Section, k: nat)
    requires k <= |AllRecords(s.functions)|
    ensures RecordPlace(s, k) % 8 == 0
    decreases k
  {
    if k == 0 {
      assert RecordsStart(s) == 8 * (2 + 3 * |s.functions| + |s.constants|);
    } else {
      RecordsAligned(s, k - 1);
      SizeAligned(AllRecords(s.functions)[k - 1]);
      SumAligned(RecordPlace(s, k - 1), SizeOf(AllRecords(s.functions)[k - 1]));
    }
  }

  /** From section to lookup: with increasing addresses, a return address is found exactly if
      some function has a record for it. */
  method DecodeAndLookup(bytes: seq<Byte>, pc: nat, ghost s: Section) returns (r: Lookup)
    requires bytes == Encode(s) && Fits(s)
    ensures r.Found? ==> HasRecordFor(s, pc)
    ensures AddressesIncrease(s) ==> (r.Found? <==> HasRecordFor(s, pc))
  {
    var table := BuildTable(bytes, s);
    r := LookupEntry(table, pc);
    TableLists(s, table[..], pc);
    if AddressesIncrease(s) {
      TableIncreases(s, table[..]);
    }
  }

  ghost predicate RecordFor(s: Section, i: nat, j: nat, pc: nat) {
    i < |s.functions| && j < |s.functions[i].records|
        && CodeAddress(s.functions[i].addr, s.functions[i].records[j].instrOffset) == pc
  }

  ghost predicate HasRecordFor(s: Section, pc: nat) {
    exists i, j :: RecordFor(s, i, j, pc)
  }

  /** Code addresses increase from record to record. */
  ghost predicate AddressesIncrease(s: Section) {
    forall i, j, a, b, x, y {:trigger RecordFor(s, i, j, x), RecordFor(s, a, b, y)} ::
      RecordFor(s, i, j, x) && RecordFor(s, a, b, y) && FirstOf(s.functions, i) + j < FirstOf(s.functions, a) + b ==>
        x < y
  }

  /** The function and the position within it of the `k`-th record. */
  lemma {:induction false} Locate(fs: seq<Function>, k: nat) returns (i: nat, j: nat)
    requires k < |AllRecords(fs)|
    ensures i < |fs| && j < |fs[i].records| && k == FirstOf(fs, i) + j
    decreases |fs|
  {
    var n := |fs| - 1;
    if k >= |AllRecords(fs[..n])| {
      i, j := n, k - |AllRecords(fs[..n])|;
    } else {
      i, j := Locate(fs[..n], k);
      assert fs[..n][..i] == fs[..i];
    }
  }

  lemma TableLists(s: Section, table: seq<Entry>, pc: nat)
    requires Tabulates(s, table)
    ensures Lists(table, pc) <==> HasRecordFor(s, pc)
  {
    if k :| 0 <= k < |table| && table[k].pc == pc {
      var i, j := Locate(s.functions, k);
      assert EntryIs(s, table, i, j);
      assert RecordFor(s, i, j, pc);
    }
    if i, j :| RecordFor(s, i, j, pc) {
      assert EntryIs(s, table, i, j);
    }
  }

  lemma TableIncreases(s: Section, table: seq<Entry>)
    requires Tabulates(s, table) && AddressesIncrease(s)
    ensures StrictlyIncreasing(table)
  {
    forall k, l | 0 <= k < l < |table| ensures table[k].pc < table[l].pc {
      var i, j := Locate(s.functions, k);
      var a, b := Locate(s.functions, l);
      assert EntryIs(s, table, i, j) && EntryIs(s, table, a, b);
      assert RecordFor(s, i, j, table[k].pc) && RecordFor(s, a, b, table[l].pc);
    }
  }
}
