/** Linux directory-entry records: the encoder that fills a caller's buffer, and a decoder to check it. */
module Dirents {
  import opened Wrappers
  import opened Paths
  import opened Namespace
  import opened Listing

  const DT_DIR: Byte := 4
  const DT_REG: Byte := 8
  const DOT: Byte := 46
  const U64_SIZE := 0x1_0000_0000_0000_0000
  type U64 = x: int | 0 <= x < U64_SIZE

  // One record as a reader of the buffer sees it; the record length is implied by the name.
  datatype Record = Record(ino: nat, off: nat, dtype: Byte, name: Name)
  datatype WriteResult = WriteResult(bytesWritten: int, entriesConsumed: nat)

  // ----- layout

  function Pow2(k: nat): (p: nat)
    ensures p > 0
  {
    if k == 0 then 1 else 2 * Pow2(k - 1)
  }

  // `a & !b`, bit by bit.
  function AndNot(a: nat, b: nat): nat {
    if a == 0 then 0
    else (if a % 2 == 1 && b % 2 == 0 then 1 else 0) + 2 * AndNot(a / 2, b / 2)
  }

  // `(value + alignment - 1) & !(alignment - 1)`.
  function AlignTo(value: nat, alignment: nat): nat
    requires alignment > 0
  {
    AndNot(value + alignment - 1, alignment - 1)
  }

  lemma ProductsGrow(a: nat, b: nat, d: nat)
    ensures a <= b ==> a * d <= b * d
  {
  }

  lemma Remainder(a: nat, d: nat, q: nat, r: nat)
    requires a == q * d + r && r < d
    ensures a % d == r && a / d == q
  {
    var q' := a / d;
    assert a == q' * d + a % d;
    ProductsGrow(q + 1, q', d);
    ProductsGrow(q' + 1, q, d);
    assert (q + 1) * d == q * d + d && (q' + 1) * d == q' * d + d;
  }

  lemma RemainderOfDouble(a: nat, p: nat)
    requires p > 0
    ensures a % (2 * p) == 2 * (a / 2 % p) + a % 2
  {
    var q, r := a / 2 / p, a / 2 % p;
    assert a / 2 == q * p + r;
    assert q * (2 * p) == 2 * (q * p);
    Remainder(a, 2 * p, q, 2 * r + a % 2);
  }

  lemma {:induction false} AndNotZero(a: nat)
    ensures AndNot(a, 0) == a
  {
    if a > 0 {
      AndNotZero(a / 2);
    }
  }

  // The mask clears the low bits.
  lemma {:induction false} AndNotMask(a: nat, k: nat)
    ensures AndNot(a, Pow2(k) - 1) == a - a % Pow2(k)
    decreases k
  {
    if k == 0 {
      AndNotZero(a);
    } else {
      var p := Pow2(k - 1);
      AndNotMask(a / 2, k - 1);
      RemainderOfDouble(a, p);
    }
  }

  // Rounding to a power of two gives the least multiple of it that is not smaller.
  lemma AlignToIsLeastMultiple(value: nat, k: nat, other: nat)
    ensures AlignTo(value, Pow2(k)) % Pow2(k) == 0 && value <= AlignTo(value, Pow2(k)) < value + Pow2(k)
    ensures other % Pow2(k) == 0 && value <= other ==> AlignTo(value, Pow2(k)) <= other
  {
    AndNotMask(value + Pow2(k) - 1, k);
    LeastMultiple(value, Pow2(k), other);
  }

  lemma LeastMultiple(value: nat, d: nat, other: nat)
    requires d > 0
    ensures var v := value + d - 1;
            var m := v - v % d;
            m % d == 0 && value <= m < value + d && (other % d == 0 && value <= other ==> m <= other)
  {
    var v := value + d - 1;
    var q, o := v / d, other / d;
    assert v == q * d + v % d && other == o * d + other % d;
    Remainder(q * d, d, q, 0);
    ProductsGrow(o + 1, q, d);
    assert (o + 1) * d == o * d + d;
    ProductsGrow(q, o, d);
  }

  // The record length, `align_to(19 + name.len() + 1, 8)`.
  function RecLen(name: Name): nat {
    (|name| + 27) / 8 * 8
  }

  lemma RecLenIsAligned(name: Name)
    ensures RecLen(name) == AlignTo(19 + |name| + 1, 8)
  {
    assert Pow2(1) == 2 && Pow2(2) == 4 && Pow2(3) == 8;
    AndNotMask(19 + |name| + 1 + 7, 3);
  }

  lemma RecLenBounds(name: Name)
    ensures RecLen(name) % 8 == 0 && |name| + 20 <= RecLen(name) < |name| + 28
  {
  }

  // The low `k` bytes of `n`, least significant first.
  function LE(n: nat, k: nat): (r: seq<Byte>)
    ensures |r| == k
  {
    if k == 0 then [] else [n % 256] + LE(n / 256, k - 1)
  }

  function FromLE(b: seq<Byte>): nat {
    if b == [] then 0 else b[0] + 256 * FromLE(b[1..])
  }

  function Pow256(k: nat): nat {
    if k == 0 then 1 else 256 * Pow256(k - 1)
  }

  lemma {:induction false} LERoundTrip(n: nat, k: nat)
    requires n < Pow256(k)
    ensures FromLE(LE(n, k)) == n
    decreases k
  {
    if k > 0 {
      LERoundTrip(n / 256, k - 1);
      assert LE(n, k)[1..] == LE(n / 256, k - 1);
    }
  }

  // Its bytes, one by one.
  lemma {:induction false} LEBytes(n: nat, k: nat, i: nat)
    requires i < k
    ensures Pow256(i) > 0 && LE(n, k)[i] == n / Pow256(i) % 256
    decreases k
  {
    if i > 0 {
      LEBytes(n / 256, k - 1, i - 1);
      DivideTwice(n, Pow256(i - 1));
    }
  }

  lemma DivideTwice(n: nat, d: nat)
    requires d > 0
    ensures n / 256 / d == n / (256 * d)
  {
    var q, r := n / 256 / d, n / 256 % d;
    assert n / 256 == q * d + r;
    assert q * (256 * d) == 256 * (q * d);
    Remainder(n, 256 * d, q, 256 * r + n % 256);
  }

  function Zeros(k: nat): seq<Byte> {
    seq(k, i => 0)
  }

  function Header(r: Record): (b: seq<Byte>)
    ensures |b| == 19
  {
    LE(r.ino, 8) + LE(r.off, 8) + LE(RecLen(r.name), 2) + [r.dtype]
  }

  function Encode(r: Record): (b: seq<Byte>)
    ensures |b| == RecLen(r.name)
  {
    RecLenBounds(r.name);
    Header(r) + r.name + [0] + Zeros(RecLen(r.name) - (19 + |r.name| + 1))
  }

  function EncodeAll(rs: seq<Record>): seq<Byte> {
    if rs == [] then [] else EncodeAll(Init(rs)) + Encode(Last(rs))
  }

  lemma {:induction false} EncodeAllConcat(a: seq<Record>, b: seq<Record>)
    ensures EncodeAll(a + b) == EncodeAll(a) + EncodeAll(b)
    decreases |b|
  {
    if b == [] {
      assert a + b == a;
    } else {
      assert Init(a + b) == a + Init(b) && Last(a + b) == Last(b);
      EncodeAllConcat(a, Init(b));
      var x, y, z := EncodeAll(a), EncodeAll(Init(b)), Encode(Last(b));
      assert (x + y) + z == x + (y + z);
    }
  }

  // ----- the decoder

  function UpToNul(b: seq<Byte>): seq<Byte> {
    if b == [] || b[0] == 0 then [] else [b[0]] + UpToNul(b[1..])
  }

  // Read the records of a buffer by following each record's own length field.
  function Decode(b: seq<Byte>): Option<seq<Record>>
    decreases |b|
  {
    if b == [] then Some([])
    else if |b| < 20 then None
    else
      var reclen := FromLE(b[16..18]);
      if reclen < 20 || reclen > |b| then None
      else
        match Decode(b[reclen..])
        case None => None
        case Some(rest) => Some([Record(FromLE(b[0..8]), FromLE(b[8..16]), b[18], UpToNul(b[19..reclen]))] + rest)
  }

  predicate NulFree(name: Name) {
    forall i :: 0 <= i < |name| ==> name[i] != 0
  }

  // The fields fit: the record length in 16 bits, the inode and the offset in 64.
  predicate Encodable(r: Record) {
    NulFree(r.name) && RecLen(r.name) < 65536 && r.ino < U64_SIZE && r.off < U64_SIZE
  }

  lemma {:induction false} UpToNulStops(name: Name, rest: seq<Byte>)
    requires NulFree(name)
    ensures UpToNul(name + [0] + rest) == name
    decreases |name|
  {
    if name != [] {
      assert (name + [0] + rest)[1..] == name[1..] + [0] + rest;
      UpToNulStops(name[1..], rest);
    }
  }

  lemma EncodeFields(r: Record, tail: seq<Byte>)
    ensures var b := Encode(r) + tail;
      && b[0..8] == LE(r.ino, 8) && b[8..16] == LE(r.off, 8) && b[16..18] == LE(RecLen(r.name), 2)
      && b[18] == r.dtype && b[RecLen(r.name)..] == tail
      && b[19..RecLen(r.name)] == r.name + [0] + Zeros(RecLen(r.name) - (19 + |r.name| + 1))
  {
    RecLenBounds(r.name);
    var head := Header(r);
    var body := r.name + [0] + Zeros(RecLen(r.name) - (19 + |r.name| + 1));
    assert Encode(r) == head + body;
  }

  // The layout of a record: where each field lies, and zeros from the end of the name on.
  lemma LayoutIsExact(r: Record, i: nat)
    requires i < RecLen(r.name)
    ensures var b := Encode(r);
            if i < 8 then Pow256(i) > 0 && b[i] == r.ino / Pow256(i) % 256
            else if i < 16 then Pow256(i - 8) > 0 && b[i] == r.off / Pow256(i - 8) % 256
            else if i < 18 then Pow256(i - 16) > 0 && b[i] == RecLen(r.name) / Pow256(i - 16) % 256
            else if i == 18 then b[i] == r.dtype
            else if i < 19 + |r.name| then b[i] == r.name[i - 19]
            else b[i] == 0
  {
    RecLenBounds(r.name);
    if i < 8 {
      LEBytes(r.ino, 8, i);
    } else if i < 16 {
      LEBytes(r.off, 8, i - 8);
    } else if i < 18 {
      LEBytes(RecLen(r.name), 2, i - 16);
    }
  }

  lemma WidthsFit()
    ensures Pow256(8) == U64_SIZE && Pow256(2) == 65536
  {
    assert Pow256(1) == 256 && Pow256(2) == 65536 && Pow256(3) == 0x100_0000 && Pow256(4) == 0x1_0000_0000;
    assert Pow256(5) == 0x100_0000_0000 && Pow256(6) == 0x1_0000_0000_0000 && Pow256(7) == 0x100_0000_0000_0000;
  }

  lemma DecodeOne(r: Record, tail: seq<Byte>)
    requires Encodable(r)
    ensures Decode(Encode(r) + tail)
         == (match Decode(tail) case None => None case Some(rest) => Some([r] + rest))
  {
    RecLenBounds(r.name);
    EncodeFields(r, tail);
    WidthsFit();
    LERoundTrip(r.ino, 8);
    LERoundTrip(r.off, 8);
    LERoundTrip(RecLen(r.name), 2);
    UpToNulStops(r.name, Zeros(RecLen(r.name) - (19 + |r.name| + 1)));
  }

  // Decoding what was encoded gives back the records.
  lemma {:induction false} DecodeRoundTrip(rs: seq<Record>)
    requires forall i :: 0 <= i < |rs| ==> Encodable(rs[i])
    ensures Decode(EncodeAll(rs)) == Some(rs)
    decreases |rs|
  {
    if rs != [] {
      DecodeRoundTrip(rs[1..]);
      assert rs == [rs[0]] + rs[1..];
      EncodeAllConcat([rs[0]], rs[1..]);
      assert Init([rs[0]]) == [] && EncodeAll([rs[0]]) == Encode(rs[0]);
      DecodeOne(rs[0], EncodeAll(rs[1..]));
    }
  }

  lemma {:induction false} FromLEBound(b: seq<Byte>)
    ensures FromLE(b) < Pow256(|b|)
    decreases |b|
  {
    if b != [] {
      FromLEBound(b[1..]);
    }
  }

  lemma {:induction false} UpToNulHasNone(b: seq<Byte>)
    ensures NulFree(UpToNul(b)) && |UpToNul(b)| <= |b|
    decreases |b|
  {
    if b != [] && b[0] != 0 {
      UpToNulHasNone(b[1..]);
    }
  }

  lemma LowTwoBytes(n: nat)
    ensures FromLE(LE(n, 2)) == n % 65536
  {
    assert LE(n, 2)[1..] == LE(n / 256, 1) && LE(n / 256, 1)[1..] == LE(n / 256 / 256, 0) == [];
    assert FromLE(LE(n / 256, 1)) == n / 256 % 256;
    Remainder(n, 65536, n / 65536, n % 256 + 256 * (n / 256 % 256));
  }

  // A record that is read back as itself at the head of a buffer fits its fields: what is read always does,
  // and a length that is cut off stops the name short.
  lemma FirstRecordFits(r: Record, tail: seq<Byte>, rest: seq<Record>)
    requires Decode(Encode(r) + tail) == Some([r] + rest)
    ensures Encodable(r)
  {
    var b := Encode(r) + tail;
    FirstRecordRead(b, r, rest);
    RecLenBounds(r.name);
    EncodeFields(r, tail);
    LowTwoBytes(RecLen(r.name));
    WidthsFit();
    FromLEBound(b[0..8]);
    FromLEBound(b[8..16]);
    UpToNulHasNone(b[19..FromLE(b[16..18])]);
    LengthIsWhole(RecLen(r.name), |r.name|);
  }

  lemma LengthIsWhole(reclen: nat, n: nat)
    requires n + 19 <= reclen % 65536 && reclen < n + 28
    ensures reclen < 65536
  {
  }

  lemma FirstRecordRead(b: seq<Byte>, r: Record, rest: seq<Record>)
    requires Decode(b) == Some([r] + rest)
    ensures |b| >= 20 && 20 <= FromLE(b[16..18]) <= |b|
    ensures r == Record(FromLE(b[0..8]), FromLE(b[8..16]), b[18], UpToNul(b[19..FromLE(b[16..18])]))
  {
    var reclen := FromLE(b[16..18]);
    var first := Record(FromLE(b[0..8]), FromLE(b[8..16]), b[18], UpToNul(b[19..reclen]));
    assert ([first] + Decode(b[reclen..]).value)[0] == first && ([r] + rest)[0] == r;
  }

  // A buffer of records reads back as those records exactly when no name holds a NUL and all fields fit.
  lemma {:induction false} DecodesBackExactlyWhen(rs: seq<Record>)
    ensures Decode(EncodeAll(rs)) == Some(rs) <==> forall i :: 0 <= i < |rs| ==> Encodable(rs[i])
    decreases |rs|
  {
    if rs != [] {
      var r, rest := rs[0], rs[1..];
      assert rs == [r] + rest;
      EncodeAllConcat([r], rest);
      assert Init([r]) == [] && EncodeAll([r]) == Encode(r);
      if Decode(EncodeAll(rs)) == Some(rs) {
        FirstRecordFits(r, EncodeAll(rest), rest);
      }
      if Encodable(r) {
        DecodeOne(r, EncodeAll(rest));
        DecodesBackExactlyWhen(rest);
        SameHead(r, rest, Decode(EncodeAll(rest)).GetOr([]));
      }
      AllEncodable(r, rest);
    }
  }

  lemma AllEncodable(r: Record, rest: seq<Record>)
    ensures (forall i :: 0 <= i < |[r] + rest| ==> Encodable(([r] + rest)[i]))
       <==> Encodable(r) && forall i :: 0 <= i < |rest| ==> Encodable(rest[i])
  {
    var rs := [r] + rest;
    assert forall i :: 0 <= i < |rest| ==> rs[i + 1] == rest[i];
    assert forall i :: 1 <= i < |rs| ==> rs[i] == rest[i - 1];
    assert rs[0] == r;
  }

  lemma SameHead<T>(x: T, a: seq<T>, b: seq<T>)
    ensures [x] + a == [x] + b <==> a == b
  {
    assert ([x] + a)[1..] == a && ([x] + b)[1..] == b;
  }

  // ----- what is written

  function EntryPath(parent: seq<Name>, name: Name): seq<Name> {
    if name == [DOT] then parent
    else if name == [DOT, DOT] then (if parent == [] then [] else Init(parent))
    else parent + [name]
  }

  function DirentType(kind: Kind): Byte {
    match kind
    case File => DT_REG
    case Dir => DT_DIR
  }

  // `hash` stands for the process's path hash.
  function RecordOf(parent: seq<Name>, hash: seq<Name> -> U64, e: DirEntry, off: nat): Record {
    Record(if e.ino.Some? then e.ino.value else hash(EntryPath(parent, e.name)), off, DirentType(e.kind), e.name)
  }

  // The records of a listing, numbered on from `start`.
  function Records(parent: seq<Name>, hash: seq<Name> -> U64, es: seq<DirEntry>, start: nat): (r: seq<Record>)
    ensures |r| == |es|
    ensures forall i :: 0 <= i < |es| ==> r[i] == RecordOf(parent, hash, es[i], start + i + 1)
  {
    seq(|es|, i requires 0 <= i < |es| => RecordOf(parent, hash, es[i], start + i + 1))
  }

  // What a record holds: the entry's name and kind, its place, and its inode, or for want of one the hash of
  // the path it names, `.` and `..` resolved.
  lemma RecordsOfEntries(parent: seq<Name>, hash: seq<Name> -> U64, es: seq<DirEntry>, start: nat, i: nat)
    requires i < |es|
    ensures var r, e := Records(parent, hash, es, start)[i], es[i];
      && r.name == e.name && r.off == start + i + 1 && r.dtype == (if e.kind.Dir? then 4 else 8)
      && (e.ino.Some? ==> r.ino == e.ino.value)
      && (e.ino.None? ==>
            r.ino == if e.name == [46] then hash(parent)
                     else if e.name == [46, 46] then hash(if parent == [] then [] else parent[..|parent| - 1])
                     else hash(parent + [e.name]))
  {
  }

  function Size(es: seq<DirEntry>): nat {
    if es == [] then 0 else Size(Init(es)) + RecLen(Last(es).name)
  }

  // How many entries, from the first on, go into `count` bytes.
  function Fit(es: seq<DirEntry>, count: nat): (k: nat)
    ensures k <= |es|
    decreases |es|
  {
    if es == [] || RecLen(es[0].name) > count then 0 else 1 + Fit(es[1..], count - RecLen(es[0].name))
  }

  lemma {:induction false} SizeCons(es: seq<DirEntry>)
    requires es != []
    ensures Size(es) == RecLen(es[0].name) + Size(es[1..])
    decreases |es|
  {
    if |es| > 1 {
      SizeCons(Init(es));
      assert Init(es[1..]) == Init(es)[1..];
    } else {
      assert Init(es) == [] && es[1..] == [];
    }
  }

  // `Fit` is the longest prefix whose records go into the buffer.
  lemma {:induction false} FitIsLongest(es: seq<DirEntry>, count: nat, k: nat)
    requires k <= |es|
    ensures Size(es[..k]) <= count <==> k <= Fit(es, count)
    decreases |es|
  {
    if k == 0 {
      assert es[..0] == [];
    } else {
      SizeCons(es[..k]);
      assert es[..k][1..] == es[1..][..k - 1];
      if RecLen(es[0].name) <= count {
        FitIsLongest(es[1..], count - RecLen(es[0].name), k - 1);
      }
    }
  }

  lemma {:induction false} SizeIsEncodedLength(parent: seq<Name>, hash: seq<Name> -> U64, es: seq<DirEntry>, start: nat)
    ensures |EncodeAll(Records(parent, hash, es, start))| == Size(es)
    decreases |es|
  {
    if es != [] {
      var rs := Records(parent, hash, es, start);
      assert Init(rs) == Records(parent, hash, Init(es), start);
      SizeIsEncodedLength(parent, hash, Init(es), start);
    }
  }

  // The buffer from `end` on is as it was.
  twostate predicate TailKept(buf: array<Byte>, end: nat)
    reads buf
  {
    forall i :: end <= i < buf.Length ==> buf[i] == old(buf[i])
  }

  // Copy bytes into the buffer at a position.
  method WriteBytes(buf: array<Byte>, at: nat, bytes: seq<Byte>)
    requires at + |bytes| <= buf.Length
    modifies buf
    ensures buf[..at + |bytes|] == old(buf[..at]) + bytes
    ensures TailKept(buf, at + |bytes|)
  {
    for i := 0 to |bytes|
      invariant buf[..at + i] == old(buf[..at]) + bytes[..i]
      invariant TailKept(buf, at + i)
    {
      buf[at + i] := bytes[i];
      assert buf[..at + i + 1] == buf[..at + i] + [bytes[i]];
    }
  }

  method WriteHeader(buf: array<Byte>, at: nat, r: Record)
    requires at + 19 <= buf.Length
    modifies buf
    ensures buf[..at + 19] == old(buf[..at]) + Header(r)
    ensures TailKept(buf, at + 19)
  {
    WriteBytes(buf, at, LE(r.ino, 8));
    WriteBytes(buf, at + 8, LE(r.off, 8));
    WriteBytes(buf, at + 16, LE(RecLen(r.name), 2));
    WriteBytes(buf, at + 18, [r.dtype]);
  }

  method WriteRecord(buf: array<Byte>, at: nat, r: Record)
    requires at + RecLen(r.name) <= buf.Length
    modifies buf
    ensures buf[..at + RecLen(r.name)] == old(buf[..at]) + Encode(r)
    ensures TailKept(buf, at + RecLen(r.name))
  {
    RecLenBounds(r.name);
    var n := |r.name|;
    WriteHeader(buf, at, r);
    WriteBytes(buf, at + 19, r.name);
    WriteBytes(buf, at + 19 + n, [0]);
    WriteBytes(buf, at + 20 + n, Zeros(RecLen(r.name) - (19 + n + 1)));
  }

  // The bytes of the first `k` records.
  function Chunk(parent: seq<Name>, hash: seq<Name> -> U64, es: seq<DirEntry>, start: nat, k: nat): seq<Byte>
    requires k <= |es|
  {
    EncodeAll(Records(parent, hash, es[..k], start))
  }

  lemma ChunkStep(parent: seq<Name>, hash: seq<Name> -> U64, es: seq<DirEntry>, start: nat, k: nat)
    requires k < |es|
    ensures Chunk(parent, hash, es, start, k + 1)
         == Chunk(parent, hash, es, start, k) + Encode(RecordOf(parent, hash, es[k], start + k + 1))
    ensures Size(es[..k + 1]) == Size(es[..k]) + RecLen(es[k].name)
  {
    assert Init(es[..k + 1]) == es[..k];
    assert Init(Records(parent, hash, es[..k + 1], start)) == Records(parent, hash, es[..k], start);
  }

  // Fill a caller's buffer with as many records as fit; -1 for an unusable buffer or a first record
  // that does not fit. Nothing past the written bytes is touched.
  method WriteDirents64(parent: seq<Name>, hash: seq<Name> -> U64, entries: seq<DirEntry>, startOffset: nat,
                        buf: array?<Byte>, count: int) returns (result: WriteResult)
    requires buf != null ==> count <= buf.Length
    modifies buf
    ensures var k := if buf == null || count <= 0 then 0 else Fit(entries, count);
            var bytes := Chunk(parent, hash, entries, startOffset, k);
            var failed := buf == null || count <= 0 || (k == 0 && entries != []);
            && result == WriteResult(if failed then -1 else |bytes|, k)
            && (buf != null ==> |bytes| <= buf.Length && buf[..|bytes|] == bytes && TailKept(buf, |bytes|))
  {
    assert entries[..0] == [];
    if buf == null || count <= 0 {
      return WriteResult(-1, 0);
    }
    var written, consumed := 0, 0;
    while consumed < |entries|
      invariant 0 <= consumed <= |entries| && written == Size(entries[..consumed]) <= count
      invariant buf[..written] == Chunk(parent, hash, entries, startOffset, consumed)
      invariant TailKept(buf, written)
    {
      ChunkStep(parent, hash, entries, startOffset, consumed);
      var entry := entries[consumed];
      var reclen := RecLen(entry.name);
      if written + reclen > count {
        break;
      }
      WriteRecord(buf, written, RecordOf(parent, hash, entry, startOffset + consumed + 1));
      written, consumed := written + reclen, consumed + 1;
    }
    FitIsConsumed(entries, count, consumed);
    SizeIsEncodedLength(parent, hash, entries[..consumed], startOffset);
    if consumed == 0 && entries != [] {
      return WriteResult(-1, 0);
    }
    return WriteResult(written, consumed);
  }

  lemma FitIsConsumed(es: seq<DirEntry>, count: nat, k: nat)
    requires k <= |es| && Size(es[..k]) <= count && (k < |es| ==> Size(es[..k + 1]) > count)
    ensures k == Fit(es, count)
  {
    FitIsLongest(es, count, k);
    if k < |es| {
      FitIsLongest(es, count, k + 1);
    }
  }

  // A full account of one call: the consumed prefix is the longest that fits, its bytes are aligned, and
  // they decode to exactly the consumed entries, in order and numbered on, if and only if the names and
  // numbers fit their fields.
  lemma WrittenBytesDecode(parent: seq<Name>, hash: seq<Name> -> U64, es: seq<DirEntry>, start: nat, count: nat)
    ensures var k := Fit(es, count);
            var rs := Records(parent, hash, es[..k], start);
            var bytes := EncodeAll(rs);
            && (Decode(bytes) == Some(rs) <==> forall i :: 0 <= i < k ==> Encodable(rs[i]))
            && |bytes| <= count && |bytes| % 8 == 0
            && (k < |es| ==> |bytes| + RecLen(es[k].name) > count)
  {
    var k := Fit(es, count);
    DecodesBackExactlyWhen(Records(parent, hash, es[..k], start));
    SizeIsEncodedLength(parent, hash, es[..k], start);
    SizeIsAligned(es[..k]);
    FitIsLongest(es, count, k);
    if k < |es| {
      FitIsLongest(es, count, k + 1);
      assert Init(es[..k + 1]) == es[..k];
    }
  }

  lemma {:induction false} SizeIsAligned(es: seq<DirEntry>)
    ensures Size(es) % 8 == 0
    decreases |es|
  {
    if es != [] {
      SizeIsAligned(Init(es));
      RecLenBounds(Last(es).name);
    }
  }
}
