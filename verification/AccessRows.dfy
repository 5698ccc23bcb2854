/**
 `access_rows` of tools/cloak_audit_smoke.py: the body of an ACCS checkpoint, with a
 52-byte header in front and a 32-byte digest behind.
 */
module AccessRows {
  import opened Options
  import opened Xors
  import opened LittleEndian

  const HEADER := 52
  const DIGEST := 32
  const MAGIC: Bytes := [65, 67, 67, 83]

  /** Body length, row count, tombstone count, and the six fields the parser only carries. */
  datatype Header = Header(body: nat, rows: nat, tombstones: nat, carried: seq<nat>)

  datatype Row = Row(channel: Bytes, mask: Bytes, issuer: Bytes, level: byte, duration: Option<nat>,
      expiry: Option<nat>, hlc: nat, origin: nat)

  datatype Tombstone = Tombstone(channel: Bytes, mask: Bytes, level: byte, first: nat, second: nat, third: nat)

  datatype Parsed = Refused | Parsed(header: Header, rows: seq<Row>, tombstones: seq<Tombstone>)

  // ---------------------------------------------------------------- reading

  /** A Python slice: clamped to the buffer, empty when it starts behind its end. */
  function Slice(data: Bytes, lo: nat, hi: nat): Bytes {
    var h := if hi < |data| then hi else |data|;
    if lo < h then data[lo..h] else []
  }

  /** Eight little-endian bytes as a number, or nothing when the buffer is too short. */
  function ReadQ(data: Bytes, pos: nat): Option<nat> {
    if pos + 8 <= |data| then Some(FromLE(data[pos..pos + 8])) else None
  }

  function ReadHeader(data: Bytes): Option<Header> {
    if |data| < HEADER then None
    else Some(Header(FromLE(data[8..12]), FromLE(data[12..14]), FromLE(data[14..16]),
                     [FromLE(data[16..18]), FromLE(data[18..20]), FromLE(data[20..28]),
                      FromLE(data[28..36]), FromLE(data[36..44]), FromLE(data[44..52])]))
  }

  /** A nullable clock: its tag must be 0 or 1; the value and the next position. */
  function ReadNullable(data: Bytes, tag: byte, pos: nat): Option<(Option<nat>, nat)> {
    if tag == 0 then Some((None, pos))
    else if tag == 1 then
      match ReadQ(data, pos)
      case None => None
      case Some(v) => Some((Some(v), pos + 8))
    else None
  }

  /** Both nullable clocks of a row. */
  function ReadTimes(data: Bytes, tag1: byte, tag2: byte, pos: nat): (r: Option<(Option<nat>, Option<nat>, nat)>)
    ensures r.Some? ==> pos <= r.value.2
  {
    match ReadNullable(data, tag1, pos)
    case None => None
    case Some((duration, p)) =>
      match ReadNullable(data, tag2, p)
      case None => None
      case Some((expiry, q)) => Some((duration, expiry, q))
  }

  /** One row and the position after it. */
  function ReadRow(data: Bytes, pos: nat): (r: Option<(Row, nat)>)
    ensures r.Some? ==> pos < r.value.1 <= |data|
  {
    if |data| < pos + 6 then None
    else
      var p1 := pos + 6 + data[pos];
      var p2 := p1 + data[pos + 1];
      var p3 := p2 + data[pos + 2];
      match ReadTimes(data, data[pos + 4], data[pos + 5], p3)
      case None => None
      case Some((duration, expiry, p)) =>
        if |data| < p + 16 then None
        else Some((Row(Slice(data, pos + 6, p1), Slice(data, p1, p2), Slice(data, p2, p3), data[pos + 3],
                       duration, expiry,
                       FromLE(data[p..p + 8]), FromLE(data[p + 8..p + 16])), p + 16))
  }

  function ReadTombstone(data: Bytes, pos: nat): (r: Option<(Tombstone, nat)>)
    ensures r.Some? ==> pos < r.value.1 <= |data|
  {
    if |data| < pos + 3 then None
    else
      var p1 := pos + 3 + data[pos];
      var p2 := p1 + data[pos + 1];
      if |data| < p2 + 24 then None
      else Some((Tombstone(Slice(data, pos + 3, p1), Slice(data, p1, p2), data[pos + 2],
                           FromLE(data[p2..p2 + 8]), FromLE(data[p2 + 8..p2 + 16]),
                           FromLE(data[p2 + 16..p2 + 24])), p2 + 24))
  }

  type Reader<!T> = (Bytes, nat) -> Option<(T, nat)>

  /** `n` records in a row: the records and the position after them. */
  function ReadMany<T>(read: Reader<T>, data: Bytes, pos: nat, n: nat): Option<(seq<T>, nat)> {
    if n == 0 then Some(([], pos))
    else
      match ReadMany(read, data, pos, n - 1)
      case None => None
      case Some((done, p)) =>
        match read(data, p)
        case None => None
        case Some((x, next)) => Some((done + [x], next))
  }

  function Parse(data: Bytes): Parsed {
    match ReadHeader(data)
    case None => Refused
    case Some(h) =>
      if data[..4] != MAGIC || data[4] != 1 || |data| != HEADER + h.body + DIGEST then Refused
      else
        match ReadMany(ReadRow, data, HEADER, h.rows)
        case None => Refused
        case Some((rows, p)) =>
          match ReadMany(ReadTombstone, data, p, h.tombstones)
          case None => Refused
          case Some((tombstones, q)) =>
            if q != |data| - DIGEST then Refused else Parsed(h, rows, tombstones)
  }

  /** A record loop of the source: read, append, advance. */
  method ReadLoop<T>(read: Reader<T>, data: Bytes, start: nat, n: nat) returns (r: Option<(seq<T>, nat)>)
    ensures r == ReadMany(read, data, start, n)
  {
    var pos, records: seq<T> := start, [];
    for i := 0 to n
      invariant ReadMany(read, data, start, i) == Some((records, pos))
    {
      var next := read(data, pos);
      if next.None? {
        Fails(read, data, start, i + 1, n);
        return None;
      }
      records, pos := records + [next.value.0], next.value.1;
    }
    return Some((records, pos));
  }

  lemma {:induction false} Fails<T>(read: Reader<T>, data: Bytes, pos: nat, n: nat, m: nat)
    requires n <= m && ReadMany(read, data, pos, n).None?
    ensures ReadMany(read, data, pos, m).None?
    decreases m
  {
    if n < m { Fails(read, data, pos, n, m - 1); }
  }

  method ParseLoop(data: Bytes) returns (r: Parsed)
    ensures r == Parse(data)
  {
    var header := ReadHeader(data);
    if header.None? {
      return Refused;
    }
    var h := header.value;
    if data[..4] != MAGIC || data[4] != 1 || |data| != HEADER + h.body + DIGEST {
      return Refused;
    }
    var rows := ReadLoop(ReadRow, data, HEADER, h.rows);
    if rows.None? {
      return Refused;
    }
    var tombstones := ReadLoop(ReadTombstone, data, rows.value.1, h.tombstones);
    if tombstones.None? || tombstones.value.1 != |data| - DIGEST {
      return Refused;
    }
    return Parsed(h, rows.value.0, tombstones.value.0);
  }

  // ---------------------------------------------------------------- writing

  predicate IsQ(n: nat) { n < Pow256(8) }

  predicate IsNullable(v: Option<nat>) { v.Some? ==> IsQ(v.value) }

  predicate RowFits(r: Row) {
    && |r.channel| < 256 && |r.mask| < 256 && |r.issuer| < 256
    && IsNullable(r.duration) && IsNullable(r.expiry) && IsQ(r.hlc) && IsQ(r.origin)
  }

  function Tag(v: Option<nat>): byte { if v.Some? then 1 else 0 }

  function WriteNullable(v: Option<nat>): Bytes { if v.Some? then ToLE(v.value, 8) else [] }

  function RowHead(r: Row): (h: Bytes)
    requires RowFits(r)
    ensures |h| == 6
  {
    [|r.channel|, |r.mask|, |r.issuer|, r.level, Tag(r.duration), Tag(r.expiry)]
  }

  function Texts(a: Bytes, b: Bytes, c: Bytes): (r: Bytes)
    ensures |r| == |a| + |b| + |c|
  {
    a + (b + c)
  }

  function Times(d: Option<nat>, e: Option<nat>): Bytes { WriteNullable(d) + WriteNullable(e) }

  function Clocks(x: nat, y: nat): (r: Bytes)
    ensures |r| == 16
  {
    ToLE(x, 8) + ToLE(y, 8)
  }

  function WriteRow(r: Row): (w: Bytes)
    requires RowFits(r)
    ensures |w| == 6 + |r.channel| + |r.mask| + |r.issuer| + |Times(r.duration, r.expiry)| + 16
  {
    RowHead(r) + (Texts(r.channel, r.mask, r.issuer) + (Times(r.duration, r.expiry) + Clocks(r.hlc, r.origin)))
  }

  predicate TombstoneFits(t: Tombstone) {
    |t.channel| < 256 && |t.mask| < 256 && IsQ(t.first) && IsQ(t.second) && IsQ(t.third)
  }

  function TombstoneHead(t: Tombstone): (h: Bytes)
    requires TombstoneFits(t)
    ensures |h| == 3
  {
    [|t.channel|, |t.mask|, t.level]
  }

  function WriteTombstone(t: Tombstone): (w: Bytes)
    requires TombstoneFits(t)
    ensures |w| == 3 + |t.channel| + |t.mask| + 24
  {
    TombstoneHead(t) + (Texts(t.channel, t.mask, ToLE(t.first, 8)) + Clocks(t.second, t.third))
  }

  // ---------------------------------------------------------------- a piece at a position

  /** `piece` stands in the buffer at `pos`. */
  ghost predicate At(data: Bytes, pos: nat, piece: Bytes) {
    piece == [] || (pos + |piece| <= |data| && data[pos..pos + |piece|] == piece)
  }

  lemma {:induction false} AtAppend(data: Bytes, pos: nat, a: Bytes, b: Bytes)
    ensures At(data, pos, a + b) <==> At(data, pos, a) && At(data, pos + |a|, b)
  {
    var p, q := pos + |a|, pos + |a| + |b|;
    if a == [] { assert a + b == b; }
    if b == [] { assert a + b == a; }
    if q <= |data| {
      assert data[pos..q] == data[pos..p] + data[p..q];
      if data[pos..q] == a + b {
        assert data[pos..p] == (a + b)[..|a|] && data[p..q] == (a + b)[|a|..];
      }
    }
  }

  lemma {:induction false} AtThree(data: Bytes, pos: nat, a: Bytes, b: Bytes, c: Bytes)
    ensures At(data, pos, a + (b + c)) <==> At(data, pos, a) && At(data, pos + |a|, b) && At(data, pos + |a| + |b|, c)
  {
    hide At;
    AtAppend(data, pos, a, b + c);
    AtAppend(data, pos + |a|, b, c);
  }

  lemma {:induction false} AtFour(data: Bytes, pos: nat, a: Bytes, b: Bytes, c: Bytes, d: Bytes)
    ensures At(data, pos, a + (b + (c + d))) <==>
            At(data, pos, a) && At(data, pos + |a|, b) && At(data, pos + |a| + |b|, c)
              && At(data, pos + |a| + |b| + |c|, d)
  {
    hide At;
    AtAppend(data, pos, a, b + (c + d));
    AtThree(data, pos + |a|, b, c, d);
  }

  lemma {:induction false} QReads(data: Bytes, pos: nat, n: nat)
    ensures pos + 8 <= |data| && FromLE(data[pos..pos + 8]) == n <==> IsQ(n) && At(data, pos, ToLE(n, 8))
  {
    if pos + 8 <= |data| { ToOfFrom(data[pos..pos + 8]); }
    if IsQ(n) { FromOfTo(n, 8); }
  }

  lemma {:induction false} NullableReads(data: Bytes, tag: byte, pos: nat, v: Option<nat>, next: nat)
    ensures ReadNullable(data, tag, pos) == Some((v, next)) <==>
            IsNullable(v) && tag == Tag(v) && next == pos + |WriteNullable(v)| && At(data, pos, WriteNullable(v))
  {
    if v.Some? { QReads(data, pos, v.value); }
  }

  lemma {:induction false} TimesRead(data: Bytes, tag1: byte, tag2: byte, pos: nat, d: Option<nat>, e: Option<nat>,
      next: nat)
    ensures ReadTimes(data, tag1, tag2, pos) == Some((d, e, next)) <==>
            && IsNullable(d) && IsNullable(e) && tag1 == Tag(d) && tag2 == Tag(e)
            && next == pos + |Times(d, e)| && At(data, pos, Times(d, e))
  {
    hide At;
    var p := pos + |WriteNullable(d)|;
    NullableReads(data, tag1, pos, d, p);
    NullableReads(data, tag2, p, e, next);
    AtAppend(data, pos, WriteNullable(d), WriteNullable(e));
    if ReadTimes(data, tag1, tag2, pos) == Some((d, e, next)) {
      var q := ReadNullable(data, tag1, pos).value.1;
      NullableReads(data, tag1, pos, d, q);
    }
  }

  lemma {:induction false} ClocksRead(data: Bytes, pos: nat, x: nat, y: nat)
    ensures pos + 16 <= |data| && FromLE(data[pos..pos + 8]) == x && FromLE(data[pos + 8..pos + 16]) == y <==>
            IsQ(x) && IsQ(y) && At(data, pos, Clocks(x, y))
  {
    QReads(data, pos, x);
    QReads(data, pos + 8, y);
    AtAppend(data, pos, ToLE(x, 8), ToLE(y, 8));
  }

  lemma {:induction false} SliceReads(data: Bytes, lo: nat, hi: nat, piece: Bytes)
    requires lo <= hi <= |data|
    ensures Slice(data, lo, hi) == piece <==> |piece| == hi - lo && At(data, lo, piece)
  {}

  lemma {:induction false} TextsRead(data: Bytes, pos: nat, p1: nat, p2: nat, p3: nat, a: Bytes, b: Bytes, c: Bytes)
    requires pos <= p1 <= p2 <= p3 <= |data|
    ensures Slice(data, pos, p1) == a && Slice(data, p1, p2) == b && Slice(data, p2, p3) == c <==>
            p1 == pos + |a| && p2 == p1 + |b| && p3 == p2 + |c| && At(data, pos, Texts(a, b, c))
  {
    hide At, Slice;
    SliceReads(data, pos, p1, a);
    SliceReads(data, p1, p2, b);
    SliceReads(data, p2, p3, c);
    AtThree(data, pos, a, b, c);
  }

  // ---------------------------------------------------------------- rows

  lemma {:induction false} HeadReads(data: Bytes, pos: nat, r: Row)
    requires RowFits(r)
    ensures At(data, pos, RowHead(r)) <==>
            && pos + 6 <= |data| && data[pos] == |r.channel| && data[pos + 1] == |r.mask| && data[pos + 2] == |r.issuer|
            && data[pos + 3] == r.level && data[pos + 4] == Tag(r.duration) && data[pos + 5] == Tag(r.expiry)
  {
    if pos + 6 <= |data| {
      var h := data[pos..pos + 6];
      assert h[0] == data[pos] && h[1] == data[pos + 1] && h[2] == data[pos + 2];
      assert h[3] == data[pos + 3] && h[4] == data[pos + 4] && h[5] == data[pos + 5];
    }
  }

  lemma {:induction false} RowAt(data: Bytes, pos: nat, r: Row)
    requires RowFits(r)
    ensures var t, e := pos + 6, pos + 6 + |r.channel| + |r.mask| + |r.issuer|;
            At(data, pos, WriteRow(r)) <==>
            && At(data, pos, RowHead(r)) && At(data, t, Texts(r.channel, r.mask, r.issuer))
            && At(data, e, Times(r.duration, r.expiry))
            && At(data, e + |Times(r.duration, r.expiry)|, Clocks(r.hlc, r.origin))
  {
    hide At;
    AtFour(data, pos, RowHead(r), Texts(r.channel, r.mask, r.issuer), Times(r.duration, r.expiry),
      Clocks(r.hlc, r.origin));
  }

  /** Writing then reading gives the row back. */
  lemma {:induction false} RowReads(data: Bytes, pos: nat, r: Row)
    requires RowFits(r) && At(data, pos, WriteRow(r))
    ensures ReadRow(data, pos) == Some((r, pos + |WriteRow(r)|))
  {
    hide At, Slice, RowHead, Texts, Times, Clocks, ReadTimes;
    var p1 := pos + 6 + |r.channel|;
    var p2 := p1 + |r.mask|;
    var p3 := p2 + |r.issuer|;
    var p := p3 + |Times(r.duration, r.expiry)|;
    RowAt(data, pos, r);
    HeadReads(data, pos, r);
    ClocksRead(data, p, r.hlc, r.origin);
    TextsRead(data, pos + 6, p1, p2, p3, r.channel, r.mask, r.issuer);
    TimesRead(data, data[pos + 4], data[pos + 5], p3, r.duration, r.expiry, p);
  }

  /** Whatever is read as a row is that row, written. */
  lemma {:induction false} ReadIsRow(data: Bytes, pos: nat)
    requires ReadRow(data, pos).Some?
    ensures var r := ReadRow(data, pos).value.0;
            RowFits(r) && At(data, pos, WriteRow(r)) && ReadRow(data, pos).value.1 == pos + |WriteRow(r)|
  {
    hide At, Slice, Texts, Times, Clocks, ReadTimes, RowHead, FromLE;
    var r := ReadRow(data, pos).value.0;
    var p1 := pos + 6 + data[pos];
    var p2 := p1 + data[pos + 1];
    var p3 := p2 + data[pos + 2];
    var p := ReadTimes(data, data[pos + 4], data[pos + 5], p3).value.2;
    TimesRead(data, data[pos + 4], data[pos + 5], p3, r.duration, r.expiry, p);
    TextsRead(data, pos + 6, p1, p2, p3, r.channel, r.mask, r.issuer);
    ClocksRead(data, p, r.hlc, r.origin);
    HeadReads(data, pos, r);
    RowAt(data, pos, r);
  }

  // ---------------------------------------------------------------- tombstones

  lemma {:induction false} TombstoneHeadReads(data: Bytes, pos: nat, t: Tombstone)
    requires TombstoneFits(t)
    ensures At(data, pos, TombstoneHead(t)) <==>
            pos + 3 <= |data| && data[pos] == |t.channel| && data[pos + 1] == |t.mask| && data[pos + 2] == t.level
  {
    if pos + 3 <= |data| {
      var h := data[pos..pos + 3];
      assert h[0] == data[pos] && h[1] == data[pos + 1] && h[2] == data[pos + 2];
    }
  }

  lemma {:induction false} TombstoneAt(data: Bytes, pos: nat, t: Tombstone)
    requires TombstoneFits(t)
    ensures var p2 := pos + 3 + |t.channel| + |t.mask|;
            At(data, pos, WriteTombstone(t)) <==>
            && At(data, pos, TombstoneHead(t)) && At(data, pos + 3, Texts(t.channel, t.mask, ToLE(t.first, 8)))
            && At(data, p2 + 8, Clocks(t.second, t.third))
  {
    hide At;
    AtThree(data, pos, TombstoneHead(t), Texts(t.channel, t.mask, ToLE(t.first, 8)), Clocks(t.second, t.third));
  }

  lemma {:induction false} TombstoneReads(data: Bytes, pos: nat, t: Tombstone)
    requires TombstoneFits(t) && At(data, pos, WriteTombstone(t))
    ensures ReadTombstone(data, pos) == Some((t, pos + |WriteTombstone(t)|))
  {
    hide At, TombstoneHead, Texts, Clocks;
    var p1 := pos + 3 + |t.channel|;
    var p2 := p1 + |t.mask|;
    TombstoneAt(data, pos, t);
    TombstoneHeadReads(data, pos, t);
    ClocksRead(data, p2 + 8, t.second, t.third);
    TextsRead(data, pos + 3, p1, p2, p2 + 8, t.channel, t.mask, ToLE(t.first, 8));
    FromOfTo(t.first, 8);
  }

  lemma {:induction false} ReadIsTombstone(data: Bytes, pos: nat)
    requires ReadTombstone(data, pos).Some?
    ensures var t := ReadTombstone(data, pos).value.0;
            TombstoneFits(t) && At(data, pos, WriteTombstone(t))
              && ReadTombstone(data, pos).value.1 == pos + |WriteTombstone(t)|
  {
    hide At, Texts, Clocks, TombstoneHead, FromLE;
    var t := ReadTombstone(data, pos).value.0;
    var p1 := pos + 3 + data[pos];
    var p2 := p1 + data[pos + 1];
    ToOfFrom(data[p2..p2 + 8]);
    TextsRead(data, pos + 3, p1, p2, p2 + 8, t.channel, t.mask, ToLE(t.first, 8));
    ClocksRead(data, p2 + 8, t.second, t.third);
    TombstoneHeadReads(data, pos, t);
    TombstoneAt(data, pos, t);
  }

  // ---------------------------------------------------------------- record lists

  /** A record format: which values can be written, and how. */
  datatype Format<!T> = Format(fits: T -> bool, write: T --> Bytes)

  ghost predicate Proper<T(!new)>(f: Format<T>) { forall x :: f.fits(x) ==> f.write.requires(x) }

  ghost predicate AgreesAt<T(!new)>(f: Format<T>, read: Reader<T>, data: Bytes, pos: nat, x: T, next: nat)
    requires Proper(f)
  {
    read(data, pos) == Some((x, next)) <==> f.fits(x) && At(data, pos, f.write(x)) && next == pos + |f.write(x)|
  }

  /** The reader and the format agree: a value is read exactly where it is written. */
  ghost predicate Agrees<T(!new)>(f: Format<T>, read: Reader<T>) {
    Proper(f) && forall data, pos: nat, x, next: nat :: AgreesAt(f, read, data, pos, x, next)
  }

  ghost predicate AllFit<T(!new)>(f: Format<T>, xs: seq<T>) { forall i :: 0 <= i < |xs| ==> f.fits(xs[i]) }

  ghost function WriteMany<T(!new)>(f: Format<T>, xs: seq<T>): Bytes
    requires Proper(f) && AllFit(f, xs)
  {
    if xs == [] then [] else WriteMany(f, xs[..|xs| - 1]) + f.write(xs[|xs| - 1])
  }

  /** Reading `n` records gives only records that the buffer holds, written. */
  lemma {:induction false} ManySound<T(!new)>(f: Format<T>, read: Reader<T>, data: Bytes, pos: nat, n: nat, xs: seq<T>,
      next: nat)
    requires Agrees(f, read) && ReadMany(read, data, pos, n) == Some((xs, next))
    ensures |xs| == n && AllFit(f, xs) && At(data, pos, WriteMany(f, xs)) && next == pos + |WriteMany(f, xs)|
    decreases n
  {
    if n > 0 {
      var m := n - 1;
      var (done, p) := ReadMany(read, data, pos, m).value;
      ManySound(f, read, data, pos, m, done, p);
      var x := read(data, p).value.0;
      assert AgreesAt(f, read, data, p, x, next);
      assert xs == done + [x] && xs[..m] == done;
      AtAppend(data, pos, WriteMany(f, done), f.write(x));
    }
  }

  /** Written records are all read back. */
  lemma {:induction false} ManyComplete<T(!new)>(f: Format<T>, read: Reader<T>, data: Bytes, pos: nat, xs: seq<T>)
    requires Agrees(f, read) && AllFit(f, xs) && At(data, pos, WriteMany(f, xs))
    ensures ReadMany(read, data, pos, |xs|) == Some((xs, pos + |WriteMany(f, xs)|))
    decreases |xs|
  {
    if xs != [] {
      var m := |xs| - 1;
      var done, x := xs[..m], xs[m];
      AtAppend(data, pos, WriteMany(f, done), f.write(x));
      ManyComplete(f, read, data, pos, done);
      assert AgreesAt(f, read, data, pos + |WriteMany(f, done)|, x, pos + |WriteMany(f, xs)|);
      assert xs == done + [x];
    }
  }

  /** Two lists of records one after the other. */
  lemma {:induction false} TwoSound<A(!new), B(!new)>(f: Format<A>, ra: Reader<A>, g: Format<B>, rb: Reader<B>,
      data: Bytes, pos: nat,
                                   n: nat, xs: seq<A>, p: nat, m: nat, ys: seq<B>, q: nat)
    requires Agrees(f, ra) && Agrees(g, rb)
    requires ReadMany(ra, data, pos, n) == Some((xs, p)) && ReadMany(rb, data, p, m) == Some((ys, q))
    ensures |xs| == n && |ys| == m && AllFit(f, xs) && AllFit(g, ys)
    ensures At(data, pos, WriteMany(f, xs) + WriteMany(g, ys)) && q == pos + |WriteMany(f, xs) + WriteMany(g, ys)|
  {
    ManySound(f, ra, data, pos, n, xs, p);
    ManySound(g, rb, data, p, m, ys, q);
    AtAppend(data, pos, WriteMany(f, xs), WriteMany(g, ys));
  }

  lemma {:induction false} TwoComplete<A(!new), B(!new)>(f: Format<A>, ra: Reader<A>, g: Format<B>, rb: Reader<B>,
      data: Bytes, pos: nat, xs: seq<A>, ys: seq<B>)
    requires Agrees(f, ra) && Agrees(g, rb) && AllFit(f, xs) && AllFit(g, ys)
    requires At(data, pos, WriteMany(f, xs) + WriteMany(g, ys))
    ensures var p := pos + |WriteMany(f, xs)|;
            ReadMany(ra, data, pos, |xs|) == Some((xs, p))
              && ReadMany(rb, data, p, |ys|) == Some((ys, p + |WriteMany(g, ys)|))
  {
    AtAppend(data, pos, WriteMany(f, xs), WriteMany(g, ys));
    ManyComplete(f, ra, data, pos, xs);
    ManyComplete(g, rb, data, pos + |WriteMany(f, xs)|, ys);
  }

  function RowFormat(): Format<Row> { Format(r => RowFits(r), (r: Row) requires RowFits(r) => WriteRow(r)) }
  function TombstoneFormat(): Format<Tombstone> {
    Format(t => TombstoneFits(t), (t: Tombstone) requires TombstoneFits(t) => WriteTombstone(t))
  }

  lemma {:induction false} RowAgrees(data: Bytes, pos: nat, r: Row, next: nat)
    ensures ReadRow(data, pos) == Some((r, next))
       <==> RowFits(r) && At(data, pos, WriteRow(r)) && next == pos + |WriteRow(r)|
  {
    hide *;
    if ReadRow(data, pos) == Some((r, next)) { ReadIsRow(data, pos); }
    if RowFits(r) && At(data, pos, WriteRow(r)) { RowReads(data, pos, r); }
  }

  lemma {:induction false} RowsAgree()
    ensures Agrees(RowFormat(), ReadRow)
  {
    hide ReadRow, WriteRow, RowFits, At;
    forall data, pos: nat, r, next: nat ensures AgreesAt(RowFormat(), ReadRow, data, pos, r, next) {
      RowAgrees(data, pos, r, next);
    }
  }

  lemma {:induction false} TombstoneAgrees(data: Bytes, pos: nat, t: Tombstone, next: nat)
    ensures ReadTombstone(data, pos) == Some((t, next))
       <==> TombstoneFits(t) && At(data, pos, WriteTombstone(t)) && next == pos + |WriteTombstone(t)|
  {
    hide *;
    if ReadTombstone(data, pos) == Some((t, next)) { ReadIsTombstone(data, pos); }
    if TombstoneFits(t) && At(data, pos, WriteTombstone(t)) { TombstoneReads(data, pos, t); }
  }

  lemma {:induction false} TombstonesAgree()
    ensures Agrees(TombstoneFormat(), ReadTombstone)
  {
    hide ReadTombstone, WriteTombstone, TombstoneFits, At;
    forall data, pos: nat, t, next: nat ensures AgreesAt(TombstoneFormat(), ReadTombstone, data, pos, t, next) {
      TombstoneAgrees(data, pos, t, next);
    }
  }

  // ---------------------------------------------------------------- whole checkpoints

  ghost predicate BodyFits(rows: seq<Row>, tombstones: seq<Tombstone>) {
    AllFit(RowFormat(), rows) && AllFit(TombstoneFormat(), tombstones)
  }

  /** The canonical body of rows and tombstones. */
  ghost function Body(rows: seq<Row>, tombstones: seq<Tombstone>): Bytes
    requires BodyFits(rows, tombstones)
  {
    WriteMany(RowFormat(), rows) + WriteMany(TombstoneFormat(), tombstones)
  }

  /** The fixed part of the buffer is a version 1 header that announces this body. */
  ghost predicate Announces(data: Bytes, h: Header) {
    ReadHeader(data) == Some(h) && data[..4] == [65, 67, 67, 83] && data[4] == 1 && |data| == 52 + h.body + 32
  }

  /**
   The parser inverts the canonical encoder, both ways: it accepts a buffer with some rows
   and tombstones exactly when the bytes between header and digest are their encoding.
   */
  lemma {:induction false} ParsesExactly(data: Bytes, h: Header, rows: seq<Row>, tombstones: seq<Tombstone>)
    ensures Parse(data) == Parsed(h, rows, tombstones) <==>
            && Announces(data, h) && |rows| == h.rows && |tombstones| == h.tombstones
            && BodyFits(rows, tombstones) && data[52..|data| - 32] == Body(rows, tombstones)
  {
    if Announces(data, h) {
      if Parse(data) == Parsed(h, rows, tombstones) { ParseSound(data, h, rows, tombstones); }
      if |rows| == h.rows && |tombstones| == h.tombstones && BodyFits(rows, tombstones)
        && data[HEADER..|data| - DIGEST] == Body(rows, tombstones) {
        ParseComplete(data, h, rows, tombstones);
      }
    }
  }

  lemma {:induction false} ParseSound(data: Bytes, h: Header, rows: seq<Row>, tombstones: seq<Tombstone>)
    requires Announces(data, h) && Parse(data) == Parsed(h, rows, tombstones)
    ensures |rows| == h.rows && |tombstones| == h.tombstones && BodyFits(rows, tombstones)
    ensures data[HEADER..|data| - DIGEST] == Body(rows, tombstones)
  {
    hide ReadRow, ReadTombstone, ReadMany, WriteMany, Agrees, AllFit;
    RowsAgree();
    TombstonesAgree();
    var p := ReadMany(ReadRow, data, HEADER, h.rows).value.1;
    TwoSound(RowFormat(), ReadRow, TombstoneFormat(), ReadTombstone, data, HEADER, h.rows, rows, p, h.tombstones,
      tombstones, |data| - DIGEST);
  }

  lemma {:induction false} ParseComplete(data: Bytes, h: Header, rows: seq<Row>, tombstones: seq<Tombstone>)
    requires Announces(data, h) && |rows| == h.rows && |tombstones| == h.tombstones && BodyFits(rows, tombstones)
    requires data[HEADER..|data| - DIGEST] == Body(rows, tombstones)
    ensures Parse(data) == Parsed(h, rows, tombstones)
  {
    hide ReadRow, ReadTombstone, ReadMany, WriteMany, Agrees, AllFit;
    RowsAgree();
    TombstonesAgree();
    TwoComplete(RowFormat(), ReadRow, TombstoneFormat(), ReadTombstone, data, HEADER, rows, tombstones);
  }

  // ---------------------------------------------------------------- a buffer for every content

  /** The fixed part of a version 1 checkpoint, as one little-endian number after another. */
  function WriteHeader(h: Header): Bytes
    requires |h.carried| == 6
  {
    MAGIC + ([1, 0, 0, 0] + (ToLE(h.body, 4) + (ToLE(h.rows, 2) + (ToLE(h.tombstones, 2) + WriteCarried(h.carried)))))
  }

  function WriteCarried(c: seq<nat>): (w: Bytes)
    requires |c| == 6
    ensures |w| == 36
  {
    ToLE(c[0], 2) + (ToLE(c[1], 2) + (ToLE(c[2], 8) + (ToLE(c[3], 8) + (ToLE(c[4], 8) + ToLE(c[5], 8)))))
  }

  predicate CarriedFits(c: seq<nat>) {
    && |c| == 6 && c[0] < Pow256(2) && c[1] < Pow256(2)
    && IsQ(c[2]) && IsQ(c[3]) && IsQ(c[4]) && IsQ(c[5])
  }

  predicate HeaderFits(h: Header) {
    h.body < Pow256(4) && h.rows < Pow256(2) && h.tombstones < Pow256(2) && CarriedFits(h.carried)
  }

  lemma {:induction false} NumberReads(data: Bytes, pos: nat, n: nat, k: nat)
    requires 0 < k && n < Pow256(k) && At(data, pos, ToLE(n, k))
    ensures pos + k <= |data| && FromLE(data[pos..pos + k]) == n
  {
    FromOfTo(n, k);
  }

  lemma {:induction false} CarriedReads(data: Bytes, c: seq<nat>)
    requires CarriedFits(c) && At(data, 16, WriteCarried(c))
    ensures |data| >= 52
    ensures c == [FromLE(data[16..18]), FromLE(data[18..20]), FromLE(data[20..28]),
                  FromLE(data[28..36]), FromLE(data[36..44]), FromLE(data[44..52])]
  {
    hide At, ToLE, FromLE, Pow256;
    var e := ToLE(c[4], 8) + ToLE(c[5], 8);
    var d := ToLE(c[3], 8) + e;
    var b := ToLE(c[2], 8) + d;
    var a := ToLE(c[1], 2) + b;
    AtAppend(data, 16, ToLE(c[0], 2), a);
    AtAppend(data, 18, ToLE(c[1], 2), b);
    AtAppend(data, 20, ToLE(c[2], 8), d);
    AtAppend(data, 28, ToLE(c[3], 8), e);
    AtAppend(data, 36, ToLE(c[4], 8), ToLE(c[5], 8));
    NumberReads(data, 16, c[0], 2);
    NumberReads(data, 18, c[1], 2);
    NumberReads(data, 20, c[2], 8);
    NumberReads(data, 28, c[3], 8);
    NumberReads(data, 36, c[4], 8);
    NumberReads(data, 44, c[5], 8);
  }

  lemma {:induction false} MarksRead(data: Bytes)
    requires At(data, 0, MAGIC) && At(data, 4, [1, 0, 0, 0])
    ensures |data| >= 8 && data[..4] == MAGIC && data[4] == 1
  {
    assert data[4..8][0] == data[4];
  }

  /** A written header is read back, marks included. */
  lemma {:induction false} HeaderReads(data: Bytes, h: Header)
    requires HeaderFits(h) && At(data, 0, WriteHeader(h))
    ensures ReadHeader(data) == Some(h) && data[..4] == MAGIC && data[4] == 1
  {
    hide At, ToLE, FromLE, Pow256, WriteCarried;
    var d := ToLE(h.tombstones, 2) + WriteCarried(h.carried);
    var c := ToLE(h.rows, 2) + d;
    var b := ToLE(h.body, 4) + c;
    AtAppend(data, 0, MAGIC, [1, 0, 0, 0] + b);
    AtAppend(data, 4, [1, 0, 0, 0], b);
    AtAppend(data, 8, ToLE(h.body, 4), c);
    AtAppend(data, 12, ToLE(h.rows, 2), d);
    AtAppend(data, 14, ToLE(h.tombstones, 2), WriteCarried(h.carried));
    MarksRead(data);
    NumberReads(data, 8, h.body, 4);
    NumberReads(data, 12, h.rows, 2);
    NumberReads(data, 14, h.tombstones, 2);
    CarriedReads(data, h.carried);
  }

  /** The header that announces these contents. */
  ghost function HeaderOf(carried: seq<nat>, rows: seq<Row>, tombstones: seq<Tombstone>): Header
    requires BodyFits(rows, tombstones)
  {
    Header(|Body(rows, tombstones)|, |rows|, |tombstones|, carried)
  }

  ghost predicate CheckpointFits(carried: seq<nat>, rows: seq<Row>, tombstones: seq<Tombstone>) {
    BodyFits(rows, tombstones) && HeaderFits(HeaderOf(carried, rows, tombstones))
  }

  /** The whole canonical buffer. */
  ghost function Encode(carried: seq<nat>, rows: seq<Row>, tombstones: seq<Tombstone>, digest: Bytes): Bytes
    requires CheckpointFits(carried, rows, tombstones)
  {
    WriteHeader(HeaderOf(carried, rows, tombstones)) + Body(rows, tombstones) + digest
  }

  lemma {:induction false} HeaderLength(h: Header)
    requires |h.carried| == 6
    ensures |WriteHeader(h)| == HEADER
  {}

  /** Whatever fits can be encoded, and parsing gives it back, for any digest of the right length. */
  lemma {:induction false} EncodeParses(carried: seq<nat>, rows: seq<Row>, tombstones: seq<Tombstone>, digest: Bytes)
    requires CheckpointFits(carried, rows, tombstones) && |digest| == DIGEST
    ensures Parse(Encode(carried, rows, tombstones, digest))
         == Parsed(HeaderOf(carried, rows, tombstones), rows, tombstones)
  {
    var h, body := HeaderOf(carried, rows, tombstones), Body(rows, tombstones);
    assert HeaderFits(h) && |h.carried| == 6;
    hide Parse, WriteHeader, Body, BodyFits, HeaderFits, ReadHeader;
    HeaderLength(h);
    var data := Encode(carried, rows, tombstones, digest);
    assert data[0..HEADER] == WriteHeader(h);
    HeaderReads(data, h);
    assert data[HEADER..|data| - DIGEST] == body;
    ParsesExactly(data, h, rows, tombstones);
  }

  /** No field is taken from the digest: replacing it changes neither acceptance nor content. */
  lemma {:induction false} DigestIsNotRead(data: Bytes, other: Bytes)
    requires |data| == |other| && |data| >= HEADER + DIGEST && data[..|data| - DIGEST] == other[..|data| - DIGEST]
    ensures Parse(other) == Parse(data)
  {
    hide Parse;
    if Parse(data).Parsed? {
      DigestKeepsContent(data, other);
    } else if Parse(other).Parsed? {
      DigestKeepsContent(other, data);
    }
  }

  lemma {:induction false} DigestKeepsContent(data: Bytes, other: Bytes)
    requires |data| == |other| && |data| >= HEADER + DIGEST && data[..|data| - DIGEST] == other[..|data| - DIGEST]
    requires Parse(data).Parsed?
    ensures Parse(other) == Parse(data)
  {
    hide Parse, WriteMany, AllFit;
    var r, end := Parse(data), |data| - DIGEST;
    ParsesExactly(data, r.header, r.rows, r.tombstones);
    assert forall i :: 0 <= i < end ==> data[..end][i] == data[i] && other[..end][i] == other[i];
    assert data[HEADER..end] == data[..end][HEADER..] && other[HEADER..end] == other[..end][HEADER..];
    SameHeader(data, other);
    ParsesExactly(other, r.header, r.rows, r.tombstones);
  }

  lemma {:induction false} SameHeader(data: Bytes, other: Bytes)
    requires |data| >= HEADER && |other| >= HEADER && forall i :: 0 <= i < HEADER ==> data[i] == other[i]
    ensures ReadHeader(data) == ReadHeader(other) && data[..4] == other[..4]
  {
    assert data[8..12] == other[8..12] && data[12..14] == other[12..14] && data[14..16] == other[14..16];
    assert data[16..18] == other[16..18] && data[18..20] == other[18..20] && data[20..28] == other[20..28];
    assert data[28..36] == other[28..36] && data[36..44] == other[36..44] && data[44..52] == other[44..52];
  }
}
