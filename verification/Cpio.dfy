/** The newc archive writer of qemu-verify/mkcpio.py, and a plain reader of that format. */
module Cpio {
  import opened Options
  import opened Xors

  // ---------------------------------------------------------------- eight hexadecimal digits

  function HexDigit(d: nat): byte requires d < 16 { if d < 10 then 48 + d else 87 + d }

  function Hex(n: nat): (s: Bytes)
    ensures s != []
  {
    if n < 16 then [HexDigit(n)] else Hex(n / 16) + [HexDigit(n % 16)]
  }

  function Fill(x: byte, k: nat): (r: Bytes)
    ensures |r| == k
  {
    seq(k, _ => x)
  }

  /** Hexadecimal, padded with zeros to eight digits; longer when the number needs more. */
  function Hex8(v: nat): Bytes {
    var s := Hex(v);
    Fill(48, if |s| < 8 then 8 - |s| else 0) + s
  }

  /** The value of a hexadecimal digit of either case. */
  function DigitOf(c: byte): Option<nat> {
    if 48 <= c <= 57 then Some(c - 48)
    else if 97 <= c <= 102 then Some(c - 87)
    else if 65 <= c <= 70 then Some(c - 55)
    else None
  }

  function HexValue(s: Bytes): Option<nat> {
    if s == [] then Some(0)
    else
      var high, low := HexValue(s[..|s| - 1]), DigitOf(s[|s| - 1]);
      if high.None? || low.None? then None else Some(16 * high.value + low.value)
  }

  lemma {:induction false} HexValueSnoc(s: Bytes, d: nat)
    requires d < 16
    ensures var v := HexValue(s);
            HexValue(s + [HexDigit(d)]) == if v.None? then None else Some(16 * v.value + d)
  {
    assert (s + [HexDigit(d)])[..|s|] == s;
  }

  lemma {:induction false} HexReads(n: nat)
    ensures HexValue(Hex(n)) == Some(n)
  {
    if n < 16 {
      HexValueSnoc([], n);
      assert [] + [HexDigit(n)] == Hex(n);
    } else {
      HexReads(n / 16);
      HexValueSnoc(Hex(n / 16), n % 16);
    }
  }

  lemma {:induction false} LeadingZeros(k: nat, s: Bytes)
    ensures HexValue(Fill(48, k) + s) == HexValue(s)
    decreases |s|, k
  {
    var z := Fill(48, k) + s;
    if s != [] {
      LeadingZeros(k, s[..|s| - 1]);
      assert z[..|z| - 1] == Fill(48, k) + s[..|s| - 1];
    } else if k > 0 {
      LeadingZeros(k - 1, s);
      assert z == (Fill(48, k - 1) + s) + [HexDigit(0)];
      HexValueSnoc(Fill(48, k - 1) + s, 0);
    } else {
      assert z == [];
    }
  }

  lemma {:induction false} LowerCase(n: nat)
    ensures forall b :: b in Hex(n) ==> 48 <= b <= 57 || 97 <= b <= 102
  {
    if n >= 16 { LowerCase(n / 16); }
  }

  function Pow16(k: nat): nat { if k == 0 then 1 else 16 * Pow16(k - 1) }

  lemma {:induction false} HexLength(n: nat, k: nat)
    requires k > 0
    ensures |Hex(n)| <= k <==> n < Pow16(k)
    decreases k
  {
    assert Pow16(k) == 16 * Pow16(k - 1);
    if k == 1 {
      assert n >= 16 ==> |Hex(n)| == |Hex(n / 16)| + 1;
    } else {
      HexLength(n / 16, k - 1);
      PowPositive(k - 1);
    }
  }

  lemma {:induction false} PowPositive(k: nat)
    ensures Pow16(k) >= 1
  {
    if k > 0 { PowPositive(k - 1); }
  }

  const LIMIT: nat := 4294967296

  lemma {:induction false} LimitIsPower()
    ensures Pow16(8) == LIMIT
  {
    var a := Pow16(4);
    assert a == 65536;
    assert Pow16(8) == 16 * Pow16(7) == 256 * Pow16(6) == 4096 * Pow16(5) == 65536 * a;
  }

  /** A field is eight digits wide, and read back, exactly below 2^32. */
  lemma {:induction false} FieldIsExact(v: nat)
    ensures |Hex8(v)| == 8 <==> v < 4_294_967_296
    ensures HexValue(Hex8(v)) == Some(v)
    ensures forall b :: b in Hex8(v) ==> 48 <= b <= 57 || 97 <= b <= 102
  {
    LimitIsPower();
    HexLength(v, 8);
    HexReads(v);
    LeadingZeros(if |Hex(v)| < 8 then 8 - |Hex(v)| else 0, Hex(v));
    LowerCase(v);
  }

  // ---------------------------------------------------------------- the writer

  const MAGIC: Bytes := [48, 55, 48, 55, 48, 49]
  const TRAILER: Bytes := [84, 82, 65, 73, 76, 69, 82, 33, 33, 33]
  const REGULAR: nat := 33188 // octal 100644

  /** The magic and the trailer's name as text. */
  lemma {:induction false} MarksAre()
    ensures |MAGIC| == 6 && forall i :: 0 <= i < 6 ==> MAGIC[i] == "070701"[i] as int
    ensures |TRAILER| == 10 && forall i :: 0 <= i < 10 ==> TRAILER[i] == "TRAILER!!!"[i] as int
  {}

  /** One `arcname=path` argument: the encoded name and what the file holds. */
  datatype Entry = Entry(name: Bytes, data: Bytes)

  /** `pad4(n)`: the least number of bytes that reaches a multiple of four. */
  function Pad4(n: nat): (r: nat)
    ensures r < 4 && (n + r) % 4 == 0
  {
    (4 - n % 4) % 4
  }

  function Pad512(n: nat): (r: nat)
    ensures r < 512 && (n + r) % 512 == 0
  {
    (512 - n % 512) % 512
  }

  function PrintFields(vs: seq<nat>): Bytes {
    if vs == [] then [] else PrintFields(vs[..|vs| - 1]) + Hex8(vs[|vs| - 1])
  }

  function Fields(ino: nat, mode: nat, size: nat, nameSize: nat): (r: seq<nat>)
    ensures |r| == 13 && r[6] == size && r[11] == nameSize
  {
    [ino, mode, 0, 0, 1, 0, size, 0, 0, 0, 0, nameSize, 0]
  }

  /** Header, name with its NUL, padding, contents, padding. */
  function Record(ino: nat, mode: nat, name: Bytes, data: Bytes): Bytes {
    MAGIC + PrintFields(Fields(ino, mode, |data|, |name| + 1))
    + (name + [0]) + Fill(0, Pad4(110 + |name| + 1))
    + data + Fill(0, Pad4(|data|))
  }

  /** The records of all entries; inode numbers count from one. */
  function Body(entries: seq<Entry>): Bytes {
    if entries == [] then []
    else
      var n := |entries| - 1;
      Body(entries[..n]) + Record(n + 1, REGULAR, entries[n].name, entries[n].data)
  }

  function Closed(entries: seq<Entry>): Bytes {
    Body(entries) + Record(|entries| + 1, 0, TRAILER, [])
  }

  function Archive(entries: seq<Entry>): Bytes {
    Closed(entries) + Fill(0, Pad512(|Closed(entries)|))
  }

  method WriteHeader(file: Bytes, vs: seq<nat>) returns (out: Bytes)
    ensures out == file + MAGIC + PrintFields(vs)
  {
    out := file + MAGIC;
    for i := 0 to |vs|
      invariant out == file + MAGIC + PrintFields(vs[..i])
    {
      out := out + Hex8(vs[i]);
      assert vs[..i + 1][..i] == vs[..i];
    }
    assert vs[..|vs|] == vs;
  }

  /** What the loop body writes for one file. */
  method WriteEntry(file: Bytes, ino: nat, e: Entry) returns (out: Bytes)
    ensures out == file + Record(ino, REGULAR, e.name, e.data)
  {
    hide PrintFields;
    var name, data := e.name + [0], e.data;
    out := WriteHeader(file, [ino, 33188, 0, 0, 1, 0, |data|, 0, 0, 0, 0, |name|, 0]);
    ghost var header := MAGIC + PrintFields(Fields(ino, REGULAR, |data|, |name|));
    assert out == file + header;
    out := out + name;
    out := out + Fill(0, Pad4(110 + |name|));
    out := out + data;
    out := out + Fill(0, Pad4(|data|));
  }

  method WriteTrailer(file: Bytes, ino: nat) returns (out: Bytes)
    ensures out == file + Record(ino, 0, TRAILER, [])
  {
    hide PrintFields;
    var name := TRAILER + [0];
    out := WriteHeader(file, [ino, 0, 0, 0, 1, 0, 0, 0, 0, 0, 0, |name|, 0]);
    ghost var header := MAGIC + PrintFields(Fields(ino, 0, 0, |name|));
    assert out == file + header;
    out := out + name;
    out := out + Fill(0, Pad4(110 + |name|));
  }

  method WriteArchive(entries: seq<Entry>) returns (file: Bytes)
    ensures file == Archive(entries)
  {
    hide Record;
    file := [];
    var ino := 1;
    for i := 0 to |entries|
      invariant ino == i + 1 && file == Body(entries[..i])
    {
      file := WriteEntry(file, ino, entries[i]);
      ino := ino + 1;
      BodyNext(entries, i);
    }
    assert entries[..|entries|] == entries;
    file := WriteTrailer(file, ino);
    file := file + Fill(0, Pad512(|file|));
  }

  // ---------------------------------------------------------------- a plain reader

  /** What the reader learns of one record: all thirteen numbers, the name, the contents. */
  datatype Item = Item(fields: seq<nat>, name: Bytes, data: Bytes)

  function Align4(n: nat): nat { n + Pad4(n) }

  function ReadFields(s: Bytes): (r: Option<seq<nat>>)
    ensures r.Some? ==> |s| == 8 * |r.value|
  {
    if s == [] then Some([])
    else if |s| < 8 then None
    else
      var init, last := ReadFields(s[..|s| - 8]), HexValue(s[|s| - 8..]);
      if init.None? || last.None? then None else Some(init.value + [last.value])
  }

  datatype Step = Step(item: Item, next: nat)

  /** One record at an absolute offset; name and contents end on multiples of four of the archive. */
  function ReadRecord(s: Bytes, pos: nat): (r: Option<Step>)
    ensures r.Some? ==> pos < r.value.next
  {
    if |s| < pos + 110 || s[pos..pos + 6] != MAGIC then None
    else
      var fields := ReadFields(s[pos + 6..pos + 110]);
      if fields.None? then None
      else ReadBody(s, pos, fields.value)
  }

  function ReadBody(s: Bytes, pos: nat, fields: seq<nat>): (r: Option<Step>)
    requires |fields| == 13
    ensures r.Some? ==> pos < r.value.next
  {
    var size, nameEnd := fields[6], pos + 110 + fields[11];
    var start := Align4(nameEnd);
    if fields[11] == 0 || |s| < start + size || s[nameEnd - 1] != 0 then None
    else Some(Step(Item(fields, s[pos + 110..nameEnd - 1], s[start..start + size]), Align4(start + size)))
  }

  /** Records up to the one named as the trailer. */
  function ReadFrom(s: Bytes, pos: nat): Option<seq<Item>>
    decreases |s| - pos
  {
    var step := ReadRecord(s, pos);
    if step.None? then None
    else if step.value.item.name == TRAILER then Some([])
    else
      var rest := ReadFrom(s, step.value.next);
      if rest.None? then None else Some([step.value.item] + rest.value)
  }

  function ReadArchive(s: Bytes): Option<seq<Item>> { ReadFrom(s, 0) }

  // ---------------------------------------------------------------- one record comes back

  predicate Fits(e: Entry) { |e.data| < LIMIT && |e.name| + 1 < LIMIT }

  predicate AllFit(entries: seq<Entry>) {
    |entries| + 1 < LIMIT && forall i :: 0 <= i < |entries| ==> Fits(entries[i])
  }

  lemma {:induction false} Middle(a: Bytes, b: Bytes, c: Bytes)
    ensures (a + b + c)[|a|..|a| + |b|] == b
  {}

  predicate Narrow(vs: seq<nat>) { forall i :: 0 <= i < |vs| ==> vs[i] < LIMIT }

  /** Numbers below 2^32 print to eight bytes each and read back. */
  lemma {:induction false} FieldsRead(vs: seq<nat>)
    requires Narrow(vs)
    ensures |PrintFields(vs)| == 8 * |vs|
    ensures ReadFields(PrintFields(vs)) == Some(vs)
  {
    hide Hex8, HexValue;
    if vs != [] {
      var n := |vs| - 1;
      var a, last := PrintFields(vs[..n]), Hex8(vs[n]);
      FieldsRead(vs[..n]);
      FieldIsExact(vs[n]);
      assert (a + last)[..|a|] == a && (a + last)[|a|..] == last;
      assert vs == vs[..n] + [vs[n]];
    }
  }

  lemma {:induction false} Multiples(a: nat, b: nat)
    requires a % 4 == 0 && b % 4 == 0
    ensures (a + b) % 4 == 0
  {}

  lemma {:induction false} EntryNarrow(entries: seq<Entry>, k: nat)
    requires AllFit(entries) && k < |entries|
    ensures Narrow(Fields(k + 1, REGULAR, |entries[k].data|, |entries[k].name| + 1))
  {
    assert Fits(entries[k]);
  }

  lemma {:induction false} RecordLength(ino: nat, mode: nat, name: Bytes, data: Bytes)
    requires Narrow(Fields(ino, mode, |data|, |name| + 1))
    ensures |Record(ino, mode, name, data)| == 110 + |name| + 1 + Pad4(110 + |name| + 1) + |data| + Pad4(|data|)
    ensures |Record(ino, mode, name, data)| % 4 == 0
  {
    var fields := Fields(ino, mode, |data|, |name| + 1);
    FieldsRead(fields);
    hide PrintFields, ReadFields, Fields, Narrow, Fill, Pad4;
    var padded := 111 + |name| + Pad4(111 + |name|);
    assert |MAGIC + PrintFields(fields)| == 110;
    assert |Record(ino, mode, name, data)| == padded + (|data| + Pad4(|data|));
    hide Record;
    Multiples(padded, |data| + Pad4(|data|));
  }

  lemma {:induction false} PadShifts(pos: nat, n: nat)
    requires pos % 4 == 0
    ensures Pad4(pos + n) == Pad4(n)
  {}

  /** Where the parts of a record stand in an archive. */
  ghost predicate Stands(s: Bytes, pos: nat, printed: Bytes, name: Bytes, gap: nat, data: Bytes) {
    var nameEnd := pos + 111 + |name|;
    && |s| >= nameEnd + gap + |data|
    && s[pos..pos + 6] == MAGIC
    && s[pos + 6..pos + 110] == printed
    && s[pos + 110..nameEnd - 1] == name
    && s[nameEnd - 1] == 0
    && s[nameEnd + gap..nameEnd + gap + |data|] == data
  }

  lemma {:induction false} PartsStand(
    before: Bytes, magic: Bytes, printed: Bytes, name: Bytes, gap: Bytes, data: Bytes, tail: Bytes, after: Bytes)
    requires |printed| == 104 && magic == MAGIC
    ensures Stands(before + (magic + printed + (name + [0]) + gap + data + tail) + after,
                   |before|, printed, name, |gap|, data)
  {
    var a := before + magic;
    var b := a + printed;
    var c := b + name;
    var d := c + [0] + gap;
    var s := before + (magic + printed + (name + [0]) + gap + data + tail) + after;
    assert s == d + data + (tail + after);
    assert s[|before|..|a|] == magic;
    assert s[|a|..|b|] == printed;
    assert s[|b|..|c|] == name;
    Middle(d, data, tail + after);
  }

  lemma {:induction false} BodyReads(s: Bytes, pos: nat, fields: seq<nat>, name: Bytes, data: Bytes)
    requires pos % 4 == 0 && |fields| == 13 && fields[6] == |data| && fields[11] == |name| + 1
    requires Stands(s, pos, PrintFields(fields), name, Pad4(111 + |name|), data)
    requires ReadFields(PrintFields(fields)) == Some(fields)
    ensures var next := pos + 111 + |name| + Pad4(111 + |name|) + |data| + Pad4(|data|);
            ReadRecord(s, pos) == Some(Step(Item(fields, name, data), next))
  {
    hide ReadFields, PrintFields;
    var nameEnd, gap := pos + 111 + |name|, Pad4(111 + |name|);
    PadShifts(pos, 111 + |name|);
    assert Align4(nameEnd) == nameEnd + gap;
    PadShifts(nameEnd + gap, |data|);
  }

  lemma {:induction false} RecordStands(before: Bytes, ino: nat, mode: nat, name: Bytes, data: Bytes, after: Bytes)
    requires Narrow(Fields(ino, mode, |data|, |name| + 1))
    ensures Stands(before + Record(ino, mode, name, data) + after, |before|,
                   PrintFields(Fields(ino, mode, |data|, |name| + 1)), name, Pad4(111 + |name|), data)
  {
    hide PrintFields, ReadFields, Fields, Narrow, Pad4, Fill, Stands;
    var printed := PrintFields(Fields(ino, mode, |data|, |name| + 1));
    FieldsRead(Fields(ino, mode, |data|, |name| + 1));
    PartsStand(before, MAGIC, printed, name, Fill(0, Pad4(111 + |name|)), data, Fill(0, Pad4(|data|)), after);
  }

  /** A record written at a multiple of four is read there, whatever stands around it. */
  lemma {:induction false} RecordReads(before: Bytes, ino: nat, mode: nat, name: Bytes, data: Bytes, after: Bytes)
    requires |before| % 4 == 0 && Narrow(Fields(ino, mode, |data|, |name| + 1))
    ensures var record := Record(ino, mode, name, data);
            var fields := Fields(ino, mode, |data|, |name| + 1);
            ReadRecord(before + record + after, |before|)
            == Some(Step(Item(fields, name, data), |before| + |record|))
  {
    hide *;
    var fields := Fields(ino, mode, |data|, |name| + 1);
    RecordLength(ino, mode, name, data);
    FieldsRead(fields);
    RecordStands(before, ino, mode, name, data, after);
    BodyReads(before + Record(ino, mode, name, data) + after, |before|, fields, name, data);
  }

  // ---------------------------------------------------------------- the archive comes back

  /** Where the `k`-th header starts. */
  function Offset(entries: seq<Entry>, k: nat): nat
    requires k <= |entries|
  {
    |Body(entries[..k])|
  }

  lemma {:induction false} BodyNext(entries: seq<Entry>, k: nat)
    requires k < |entries|
    ensures Body(entries[..k + 1]) == Body(entries[..k]) + Record(k + 1, REGULAR, entries[k].name, entries[k].data)
  {
    hide Record;
    assert entries[..k + 1][..k] == entries[..k];
  }

  /** From one header to the next is a record, and its length is a multiple of four. */
  lemma {:induction false} OffsetStep(entries: seq<Entry>, k: nat) returns (size: nat)
    requires AllFit(entries) && k < |entries|
    ensures Offset(entries, k + 1) == Offset(entries, k) + size && size % 4 == 0
  {
    hide Record, Body, AllFit, Narrow, Fields, Pad4;
    var e := entries[k];
    size := |Record(k + 1, REGULAR, e.name, e.data)|;
    BodyNext(entries, k);
    EntryNarrow(entries, k);
    RecordLength(k + 1, REGULAR, e.name, e.data);
  }

  lemma {:induction false} OffsetZero(entries: seq<Entry>)
    ensures Offset(entries, 0) == 0
  {
    assert entries[..0] == [];
  }

  lemma {:induction false} OffsetAligned(entries: seq<Entry>, k: nat)
    requires AllFit(entries) && k <= |entries|
    ensures Offset(entries, k) % 4 == 0
  {
    hide *;
    if k == 0 {
      OffsetZero(entries);
    } else {
      OffsetAligned(entries, k - 1);
      var size := OffsetStep(entries, k - 1);
      Multiples(Offset(entries, k - 1), size);
    }
  }

  /** The archive, seen from the `k`-th record on. */
  function After(entries: seq<Entry>, k: nat): Bytes
    requires k <= |entries|
    decreases |entries| - k
  {
    if k == |entries| then
      Record(k + 1, 0, TRAILER, []) + Fill(0, Pad512(|Closed(entries)|))
    else
      Record(k + 1, REGULAR, entries[k].name, entries[k].data) + After(entries, k + 1)
  }

  lemma {:induction false} Regroup(a: Bytes, b: Bytes, c: Bytes)
    ensures a + b + c == a + (b + c)
  {}

  lemma {:induction false} ArchiveAt(entries: seq<Entry>, k: nat)
    requires k <= |entries|
    ensures Archive(entries) == Body(entries[..k]) + After(entries, k)
    decreases |entries| - k
  {
    hide Record;
    if k == |entries| {
      assert entries[..k] == entries;
      hide Body;
      Regroup(Body(entries), Record(k + 1, 0, TRAILER, []), Fill(0, Pad512(|Closed(entries)|)));
    } else {
      ArchiveAt(entries, k + 1);
      BodyNext(entries, k);
      hide Body, Archive;
      var r := Record(k + 1, REGULAR, entries[k].name, entries[k].data);
      Regroup(Body(entries[..k]), r, After(entries, k + 1));
    }
  }

  /** Every header stands at a multiple of four, the magic is there, and blocks of 512 come out even. */
  lemma {:induction false} ArchiveLayout(entries: seq<Entry>)
    requires AllFit(entries)
    ensures |Archive(entries)| % 512 == 0
    ensures forall k :: 0 <= k <= |entries| ==>
              var p := Offset(entries, k);
              p % 4 == 0 && p + 110 <= |Archive(entries)| && Archive(entries)[p..p + 6] == MAGIC
  {
    hide Record, Body;
    forall k | 0 <= k <= |entries|
      ensures var p := Offset(entries, k);
              p % 4 == 0 && p + 110 <= |Archive(entries)| && Archive(entries)[p..p + 6] == MAGIC
    {
      OffsetAligned(entries, k);
      ArchiveAt(entries, k);
      AfterReads(entries, k);
    }
  }

  /** What is read at the `k`-th header. */
  lemma {:induction false} AfterReads(entries: seq<Entry>, k: nat)
    requires AllFit(entries) && k <= |entries|
    ensures k < |entries| ==>
              ReadRecord(Archive(entries), Offset(entries, k)) == Some(Step(ItemOf(entries, k), Offset(entries, k + 1)))
    ensures k == |entries| ==>
              var r := ReadRecord(Archive(entries), Offset(entries, k));
              r.Some? && r.value.item == Item([k + 1, 0, 0, 0, 1, 0, 0, 0, 0, 0, 0, 11, 0], TRAILER, [])
  {
    hide Record, ReadRecord, Body;
    var before := Body(entries[..k]);
    OffsetAligned(entries, k);
    ArchiveAt(entries, k);
    if k < |entries| {
      var e := entries[k];
      EntryNarrow(entries, k);
      BodyNext(entries, k);
      var record := Record(k + 1, REGULAR, e.name, e.data);
      RecordReads(before, k + 1, REGULAR, e.name, e.data, After(entries, k + 1));
      assert Archive(entries) == before + record + After(entries, k + 1);
    } else {
      var record, zeros := Record(k + 1, 0, TRAILER, []), Fill(0, Pad512(|Closed(entries)|));
      RecordReads(before, k + 1, 0, TRAILER, [], zeros);
      assert Archive(entries) == before + record + zeros;
    }
  }

  /** The `k`-th entry as a reader should see it: a regular file with one link and its own inode number. */
  function ItemOf(entries: seq<Entry>, k: nat): Item
    requires k < |entries|
  {
    var e := entries[k];
    Item([k + 1, 33188, 0, 0, 1, 0, |e.data|, 0, 0, 0, 0, |e.name| + 1, 0], e.name, e.data)
  }

  /** No entry from `k` on bears the trailer's name. */
  predicate NoTrailer(entries: seq<Entry>, k: nat) {
    forall i :: k <= i < |entries| ==> entries[i].name != TRAILER
  }

  /** The items from `k` on, up to an entry that bears the trailer's name. */
  function Expected(entries: seq<Entry>, k: nat): seq<Item>
    requires k <= |entries|
    decreases |entries| - k
  {
    if k == |entries| || entries[k].name == TRAILER then []
    else [ItemOf(entries, k)] + Expected(entries, k + 1)
  }

  lemma {:induction false} ReadsFrom(entries: seq<Entry>, k: nat)
    requires AllFit(entries) && k <= |entries|
    ensures ReadFrom(Archive(entries), Offset(entries, k)) == Some(Expected(entries, k))
    decreases |entries| - k
  {
    hide Record, ReadRecord, Body, Archive;
    AfterReads(entries, k);
    if k < |entries| && entries[k].name != TRAILER {
      ReadsFrom(entries, k + 1);
    }
  }

  lemma {:induction false} ReadsAll(entries: seq<Entry>)
    requires AllFit(entries)
    ensures ReadArchive(Archive(entries)) == Some(Expected(entries, 0))
  {
    hide Record, ReadFrom, Archive, Expected, AllFit;
    assert entries[..0] == [];
    ReadsFrom(entries, 0);
  }

  lemma {:induction false} ExpectedAll(entries: seq<Entry>, k: nat)
    requires k <= |entries|
    ensures |Expected(entries, k)| <= |entries| - k
    ensures |Expected(entries, k)| == |entries| - k <==> NoTrailer(entries, k)
    ensures forall j :: 0 <= j < |Expected(entries, k)| ==> Expected(entries, k)[j] == ItemOf(entries, k + j)
    decreases |entries| - k
  {
    if k < |entries| && entries[k].name != TRAILER {
      ExpectedAll(entries, k + 1);
      var rest := Expected(entries, k + 1);
      forall j | 0 <= j < |Expected(entries, k)| ensures Expected(entries, k)[j] == ItemOf(entries, k + j) {
        if j > 0 { assert rest[j - 1] == ItemOf(entries, k + 1 + (j - 1)); }
      }
    }
  }

  /** A reader always gets through; it gets every entry, in order, exactly when none is named as the trailer. */
  lemma {:induction false} ArchiveReads(entries: seq<Entry>)
    requires AllFit(entries)
    ensures var r := ReadArchive(Archive(entries));
            && r.Some? && |r.value| <= |entries|
            && (forall k :: 0 <= k < |r.value| ==> r.value[k] == ItemOf(entries, k))
            && (|r.value| == |entries| <==> NoTrailer(entries, 0))
  {
    hide *;
    ReadsAll(entries);
    ExpectedAll(entries, 0);
    var r := Expected(entries, 0);
    forall k | 0 <= k < |r| ensures r[k] == ItemOf(entries, k) {
      assert r[k] == ItemOf(entries, 0 + k);
    }
  }

  /** Between a name and its contents, and behind the contents, there are only zero bytes. */
  lemma {:induction false} PaddingIsZero(ino: nat, mode: nat, name: Bytes, data: Bytes, i: nat)
    requires Narrow(Fields(ino, mode, |data|, |name| + 1))
    requires var contents := 111 + |name| + Pad4(111 + |name|);
             110 + |name| <= i < contents || contents + |data| <= i < contents + |data| + Pad4(|data|)
    ensures i < |Record(ino, mode, name, data)| && Record(ino, mode, name, data)[i] == 0
  {
    var printed := PrintFields(Fields(ino, mode, |data|, |name| + 1));
    FieldsRead(Fields(ino, mode, |data|, |name| + 1));
    hide PrintFields, ReadFields, Fields, Narrow, Pad4;
    var head := MAGIC + printed;
    assert |head| == 110;
    var gap, tail := Fill(0, Pad4(111 + |name|)), Fill(0, Pad4(|data|));
    assert Record(ino, mode, name, data) == head + (name + [0]) + gap + data + tail;
  }

  /** Behind the trailer there are fewer than 512 bytes, all zero. */
  lemma {:induction false} EndIsZero(entries: seq<Entry>)
    ensures var end := |Body(entries) + Record(|entries| + 1, 0, TRAILER, [])|;
            && end <= |Archive(entries)| < end + 512
            && forall i :: end <= i < |Archive(entries)| ==> Archive(entries)[i] == 0
  {
    hide Body, Record;
  }
}
