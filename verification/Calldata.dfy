/**
 The packed call data of the redeem and burn calls. The contract reads every field by
 loading 32 bytes, most significant first, and shifting the unwanted low bytes away.
 Reading past the end gives zero bytes.
 */
module Calldata {
  import opened Common
  import opened WalletModel

  type byte = b: nat | b < 256

  function Pow256(n: nat): (p: nat)
    ensures p > 0
  {
    if n == 0 then 1 else 256 * Pow256(n - 1)
  }

  function ByteAt(data: seq<byte>, i: nat): byte {
    if i < |data| then data[i] else 0
  }

  /** The n bytes at an offset as a number, most significant byte first. */
  function Word(data: seq<byte>, offset: nat, n: nat): nat {
    if n == 0 then 0 else Word(data, offset, n - 1) * 256 + ByteAt(data, offset + n - 1)
  }

  function Load(data: seq<byte>, offset: nat): nat {
    Word(data, offset, 32)
  }

  /** A right shift by a whole number of bytes. */
  function ShiftRight(x: nat, bytes: nat): nat {
    Quotient(x, Pow256(bytes))
  }

  // ----- the contract's reads

  function CountOf(data: seq<byte>): nat {
    ShiftRight(Load(data, 4), 30)
  }

  function RecipientOf(data: seq<byte>): Address {
    ShiftRight(Load(data, 6), 12)
  }

  /** The recovery byte comes from the same load as the second word. */
  function SignatureAt(data: seq<byte>, offset: nat): Signature {
    Signature(Load(data, offset), Load(data, offset + 32), ShiftRight(Load(data, offset + 32), 31))
  }

  const REDEEM_STRIDE: nat := 139
  const BURN_STRIDE: nat := 74

  function RedeemRecordAt(data: seq<byte>, i: nat): RedeemRecord {
    var offset := 26 + REDEEM_STRIDE * i;
    RedeemRecord(ShiftRight(Load(data, offset), 28), ShiftRight(Load(data, offset + 4), 28),
                 SignatureAt(data, offset + 8), SignatureAt(data, offset + 73))
  }

  function BurnRecordAt(data: seq<byte>, i: nat): BurnRecord {
    var offset := 26 + BURN_STRIDE * i;
    BurnRecord(ShiftRight(Load(data, offset), 28), ShiftRight(Load(data, offset + 4), 28),
               ShiftRight(Load(data, offset + 8), 31), SignatureAt(data, offset + 9))
  }

  function RedeemBatch(data: seq<byte>): seq<RedeemRecord> {
    seq(CountOf(data), i requires 0 <= i < CountOf(data) => RedeemRecordAt(data, i))
  }

  function BurnBatch(data: seq<byte>): seq<BurnRecord> {
    seq(CountOf(data), i requires 0 <= i < CountOf(data) => BurnRecordAt(data, i))
  }

  // ----- a caller's layout

  function Bytes(x: nat, n: nat): (s: seq<byte>)
    ensures |s| == n
  {
    if n == 0 then [] else Bytes(x / 256, n - 1) + [x % 256]
  }

  lemma BytesSnoc(x: nat, n: nat)
    ensures Bytes(x, n + 1) == Bytes(x / 256, n) + [x % 256] && Bytes(x, 0) == []
  {}

  function SignatureBytes(g: Signature): seq<byte> {
    Bytes(g.r, 32) + Bytes(g.s, 32) + Bytes(g.v, 1)
  }

  /** The fields of a redeem record, one byte short of the stride. */
  function RedeemFieldBytes(r: RedeemRecord): (b: seq<byte>)
    ensures |b| == REDEEM_STRIDE - 1
  {
    Bytes(r.index, 4) + Bytes(r.u, 4) + SignatureBytes(r.commitSig) + SignatureBytes(r.invalidatingSig)
  }

  function RedeemBytes(r: RedeemRecord, pad: byte): seq<byte> {
    RedeemFieldBytes(r) + [pad]
  }

  function BurnBytes(r: BurnRecord): seq<byte> {
    Bytes(r.index, 4) + Bytes(r.u, 4) + Bytes(r.kind, 1) + SignatureBytes(r.commitSig)
  }

  function RedeemRecordsBytes(batch: seq<RedeemRecord>, pad: byte): seq<byte> {
    if batch == [] then []
    else RedeemRecordsBytes(batch[..|batch| - 1], pad) + RedeemBytes(batch[|batch| - 1], pad)
  }

  function BurnRecordsBytes(batch: seq<BurnRecord>): seq<byte> {
    if batch == [] then []
    else BurnRecordsBytes(batch[..|batch| - 1]) + BurnBytes(batch[|batch| - 1])
  }

  function Header(selector: seq<byte>, count: nat, to: Address): seq<byte> {
    selector + Bytes(count, 2) + Bytes(to, 20)
  }

  predicate SignatureFits(g: Signature) {
    g.r < Pow256(32) && g.s < Pow256(32) && g.v < Pow256(1)
  }

  predicate RedeemFits(r: RedeemRecord) {
    r.index < Pow256(4) && r.u < Pow256(4) && SignatureFits(r.commitSig) && SignatureFits(r.invalidatingSig)
  }

  predicate BurnFits(r: BurnRecord) {
    r.index < Pow256(4) && r.u < Pow256(4) && r.kind < Pow256(1) && SignatureFits(r.commitSig)
  }

  /** What the contract sees of a signature: its recovery byte is the top byte of s. */
  function AsRead(g: Signature): Signature {
    g.(v := ShiftRight(g.s, 31))
  }

  function RedeemAsRead(r: RedeemRecord): RedeemRecord {
    r.(commitSig := AsRead(r.commitSig), invalidatingSig := AsRead(r.invalidatingSig))
  }

  function BurnAsRead(r: BurnRecord): BurnRecord {
    r.(commitSig := AsRead(r.commitSig))
  }

  // ----- loads and shifts

  lemma Distribute(hi: nat, p: nat, lo: nat)
    ensures (hi * p + lo) * 256 == hi * (256 * p) + lo * 256
  {}

  lemma WordSnoc(data: seq<byte>, offset: nat, n: nat)
    ensures Word(data, offset, n + 1) == Word(data, offset, n) * 256 + ByteAt(data, offset + n)
    ensures Word(data, offset, 0) == 0
  {}

  lemma {:induction false} WordSplits(data: seq<byte>, offset: nat, n: nat, m: nat)
    ensures Word(data, offset, n + m) == Word(data, offset, n) * Pow256(m) + Word(data, offset + n, m)
  {
    if m > 0 {
      WordSplits(data, offset, n, m - 1);
      Distribute(Word(data, offset, n), Pow256(m - 1), Word(data, offset + n, m - 1));
    }
  }

  lemma {:induction false} WordBound(data: seq<byte>, offset: nat, n: nat)
    ensures Word(data, offset, n) < Pow256(n)
  {
    if n > 0 {
      WordBound(data, offset, n - 1);
    }
  }

  /** A load shifted right by its unwanted bytes is the field at that offset. */
  lemma LoadShiftReadsField(data: seq<byte>, offset: nat, n: nat)
    requires n <= 32
    ensures ShiftRight(Load(data, offset), 32 - n) == Word(data, offset, n)
  {
    WordSplits(data, offset, n, 32 - n);
    WordBound(data, offset + n, 32 - n);
    QuotientIsUnique(Load(data, offset), Word(data, offset, n), Word(data, offset + n, 32 - n), Pow256(32 - n));
  }

  lemma {:induction false} BytesReadBack(data: seq<byte>, offset: nat, x: nat, n: nat)
    requires x < Pow256(n)
    requires offset + n <= |data| && data[offset..offset + n] == Bytes(x, n)
    ensures Word(data, offset, n) == x
  {
    if n > 0 {
      assert data[offset..offset + n][..n - 1] == data[offset..offset + n - 1];
      assert Bytes(x, n)[..n - 1] == Bytes(x / 256, n - 1);
      BytesReadBack(data, offset, x / 256, n - 1);
      assert data[offset + n - 1] == data[offset..offset + n][n - 1] == x % 256;
    }
  }

  /** A field laid out at an offset is what a load and a shift recover. */
  lemma FieldReadBack(data: seq<byte>, offset: nat, x: nat, n: nat)
    requires n <= 32 && x < Pow256(n)
    requires offset + n <= |data| && data[offset..offset + n] == Bytes(x, n)
    ensures ShiftRight(Load(data, offset), 32 - n) == x
  {
    BytesReadBack(data, offset, x, n);
    LoadShiftReadsField(data, offset, n);
  }

  lemma SignatureWords(g: Signature)
    ensures SignatureBytes(g)[0..32] == Bytes(g.r, 32) && SignatureBytes(g)[32..64] == Bytes(g.s, 32)
  {
    var r, s, v := Bytes(g.r, 32), Bytes(g.s, 32), Bytes(g.v, 1);
    Associate(r, s, v);
    assert (r + (s + v))[0..32] == r;
    Middle(r, s, v);
  }

  lemma {:induction false} SignatureReadBack(data: seq<byte>, offset: nat, g: Signature)
    requires SignatureFits(g)
    requires offset + 65 <= |data| && data[offset..offset + 65] == SignatureBytes(g)
    ensures SignatureAt(data, offset) == AsRead(g)
  {
    SignatureWords(g);
    SubSlice(data, offset, 65, 0, 32);
    SubSlice(data, offset, 65, 32, 64);
    BytesReadBack(data, offset, g.r, 32);
    BytesReadBack(data, offset + 32, g.s, 32);
  }

  lemma RedeemFields(r: RedeemRecord)
    ensures var b := RedeemFieldBytes(r);
            && b[0..4] == Bytes(r.index, 4) && b[4..8] == Bytes(r.u, 4)
            && b[8..73] == SignatureBytes(r.commitSig) && b[73..138] == SignatureBytes(r.invalidatingSig)
  {
    var index, u := Bytes(r.index, 4), Bytes(r.u, 4);
    var g, h := SignatureBytes(r.commitSig), SignatureBytes(r.invalidatingSig);
    var b := RedeemFieldBytes(r);
    assert b == [] + index + (u + g + h);
    Middle([], index, u + g + h);
    assert b == index + u + (g + h);
    Middle(index, u, g + h);
    Middle(index + u, g, h);
    assert b == (index + u + g) + h + [];
    Middle(index + u + g, h, []);
  }

  lemma BurnFields(r: BurnRecord)
    ensures var b := BurnBytes(r);
            && |b| == 74
            && b[0..4] == Bytes(r.index, 4) && b[4..8] == Bytes(r.u, 4)
            && b[8..9] == Bytes(r.kind, 1) && b[9..74] == SignatureBytes(r.commitSig)
  {
    var index, u, kind := Bytes(r.index, 4), Bytes(r.u, 4), Bytes(r.kind, 1);
    var g := SignatureBytes(r.commitSig);
    var b := BurnBytes(r);
    assert b == [] + index + (u + kind + g);
    Middle([], index, u + kind + g);
    assert b == index + u + (kind + g);
    Middle(index, u, kind + g);
    Middle(index + u, kind, g);
    assert b == (index + u + kind) + g + [];
    Middle(index + u + kind, g, []);
  }

  lemma {:induction false} RedeemNumbersReadBack(data: seq<byte>, o: nat, r: RedeemRecord)
    requires RedeemFits(r) && o + 138 <= |data| && data[o..o + 138] == RedeemFieldBytes(r)
    ensures ShiftRight(Load(data, o), 28) == r.index && ShiftRight(Load(data, o + 4), 28) == r.u
  {
    RedeemFields(r);
    SubSlice(data, o, 138, 0, 4);
    FieldReadBack(data, o, r.index, 4);
    SubSlice(data, o, 138, 4, 8);
    FieldReadBack(data, o + 4, r.u, 4);
  }

  lemma {:induction false} RedeemSignaturesReadBack(data: seq<byte>, o: nat, r: RedeemRecord)
    requires RedeemFits(r) && o + 138 <= |data| && data[o..o + 138] == RedeemFieldBytes(r)
    ensures SignatureAt(data, o + 8) == AsRead(r.commitSig) && SignatureAt(data, o + 73) == AsRead(r.invalidatingSig)
  {
    RedeemFields(r);
    SubSlice(data, o, 138, 8, 73);
    SignatureReadBack(data, o + 8, r.commitSig);
    SubSlice(data, o, 138, 73, 138);
    SignatureReadBack(data, o + 73, r.invalidatingSig);
  }

  /** The record that lies at an offset, read where the stride puts it. */
  lemma {:induction false} RedeemReadBackAt(data: seq<byte>, i: nat, o: nat, r: RedeemRecord)
    requires RedeemFits(r) && o == 26 + REDEEM_STRIDE * i
    requires o + 138 <= |data| && data[o..o + 138] == RedeemFieldBytes(r)
    ensures RedeemRecordAt(data, i) == RedeemAsRead(r)
  {
    RedeemNumbersReadBack(data, o, r);
    RedeemSignaturesReadBack(data, o, r);
  }

  lemma {:induction false} BurnRecordReadBack(data: seq<byte>, i: nat, r: BurnRecord)
    requires BurnFits(r)
    requires var o := 26 + BURN_STRIDE * i; o + 74 <= |data| && data[o..o + 74] == BurnBytes(r)
    ensures BurnRecordAt(data, i) == BurnAsRead(r)
  {
    var o := 26 + BURN_STRIDE * i;
    BurnFields(r);
    SubSlice(data, o, 74, 0, 4);
    FieldReadBack(data, o, r.index, 4);
    SubSlice(data, o, 74, 4, 8);
    FieldReadBack(data, o + 4, r.u, 4);
    SubSlice(data, o, 74, 8, 9);
    FieldReadBack(data, o + 8, r.kind, 1);
    SubSlice(data, o, 74, 9, 74);
    SignatureReadBack(data, o + 9, r.commitSig);
  }

  lemma {:induction false} HeaderReadBack(data: seq<byte>, selector: seq<byte>, count: nat, to: Address)
    requires |selector| == 4 && count < Pow256(2) && to < Pow256(20)
    requires 26 <= |data| && data[..26] == Header(selector, count, to)
    ensures CountOf(data) == count && RecipientOf(data) == to
  {
    var header := data[..26];
    assert data[4..4 + 2] == header[4..6] == Bytes(count, 2);
    assert data[6..6 + 20] == header[6..26] == Bytes(to, 20);
    FieldReadBack(data, 4, count, 2);
    FieldReadBack(data, 6, to, 20);
  }

  // ----- where the records lie

  lemma {:induction false} RedeemLayout(batch: seq<RedeemRecord>, pad: byte, i: nat)
    requires i < |batch|
    ensures |RedeemRecordsBytes(batch, pad)| == REDEEM_STRIDE * |batch|
    ensures REDEEM_STRIDE * i + 139 <= |RedeemRecordsBytes(batch, pad)|
    ensures RedeemRecordsBytes(batch, pad)[REDEEM_STRIDE * i..REDEEM_STRIDE * i + 139] == RedeemBytes(batch[i], pad)
  {
    var n := |batch| - 1;
    var front := RedeemRecordsBytes(batch[..n], pad);
    if n > 0 {
      RedeemLayout(batch[..n], pad, if i < n then i else 0);
    }
    assert |front| == REDEEM_STRIDE * n;
    if i < n {
      assert (front + RedeemBytes(batch[n], pad))[REDEEM_STRIDE * i..REDEEM_STRIDE * i + 139]
          == front[REDEEM_STRIDE * i..REDEEM_STRIDE * i + 139];
    }
  }

  lemma {:induction false} BurnLayout(batch: seq<BurnRecord>, i: nat)
    requires i < |batch|
    ensures |BurnRecordsBytes(batch)| == BURN_STRIDE * |batch|
    ensures BURN_STRIDE * i + 74 <= |BurnRecordsBytes(batch)|
    ensures BurnRecordsBytes(batch)[BURN_STRIDE * i..BURN_STRIDE * i + 74] == BurnBytes(batch[i])
  {
    var n := |batch| - 1;
    var front := BurnRecordsBytes(batch[..n]);
    if n > 0 {
      BurnLayout(batch[..n], if i < n then i else 0);
    }
    assert |front| == BURN_STRIDE * n;
    if i < n {
      assert (front + BurnBytes(batch[n]))[BURN_STRIDE * i..BURN_STRIDE * i + 74]
          == front[BURN_STRIDE * i..BURN_STRIDE * i + 74];
    }
  }

  lemma {:induction false} RedeemRecordInPlace(header: seq<byte>, batch: seq<RedeemRecord>, pad: byte, i: nat)
    requires |header| == 26 && i < |batch| && RedeemFits(batch[i])
    ensures RedeemRecordAt(header + RedeemRecordsBytes(batch, pad), i) == RedeemAsRead(batch[i])
  {
    var records := RedeemRecordsBytes(batch, pad);
    var o := REDEEM_STRIDE * i;
    RedeemLayout(batch, pad, i);
    SliceBehind(header, records, o, o + 138);
    SubSlice(records, o, 139, 0, 138);
    assert RedeemBytes(batch[i], pad)[0..138] == RedeemFieldBytes(batch[i]);
    RedeemReadBackAt(header + records, i, 26 + o, batch[i]);
  }

  lemma {:induction false} BurnRecordInPlace(header: seq<byte>, batch: seq<BurnRecord>, i: nat)
    requires |header| == 26 && i < |batch| && BurnFits(batch[i])
    ensures BurnRecordAt(header + BurnRecordsBytes(batch), i) == BurnAsRead(batch[i])
  {
    var records := BurnRecordsBytes(batch);
    var o := BURN_STRIDE * i;
    BurnLayout(batch, i);
    SliceBehind(header, records, o, o + 74);
    BurnRecordReadBack(header + records, i, batch[i]);
  }

  /**
   Decoding recovers the count, the recipient and every record laid out one byte more
   than its fields apart, whatever that byte holds: all of each record except the
   recovery bytes, in whose place the contract reads the top bytes of s.
   */
  lemma {:induction false} RedeemRoundTrip(selector: seq<byte>, to: Address, batch: seq<RedeemRecord>, pad: byte)
    requires |selector| == 4 && to < Pow256(20) && |batch| < Pow256(2)
    requires forall i :: 0 <= i < |batch| ==> RedeemFits(batch[i])
    ensures var data := Header(selector, |batch|, to) + RedeemRecordsBytes(batch, pad);
            && RecipientOf(data) == to
            && |RedeemBatch(data)| == |batch|
            && forall i :: 0 <= i < |batch| ==> RedeemBatch(data)[i] == RedeemAsRead(batch[i])
  {
    var header := Header(selector, |batch|, to);
    var data := header + RedeemRecordsBytes(batch, pad);
    assert data[..26] == header;
    HeaderReadBack(data, selector, |batch|, to);
    forall i | 0 <= i < |batch| ensures RedeemRecordAt(data, i) == RedeemAsRead(batch[i]) {
      RedeemRecordInPlace(header, batch, pad, i);
    }
  }

  // ----- records without the byte between

  function PackedBytes(batch: seq<RedeemRecord>): (b: seq<byte>)
    ensures |batch| > 0 ==> |b| >= REDEEM_STRIDE - 1
    ensures |batch| > 1 ==> |b| >= 2 * (REDEEM_STRIDE - 1)
  {
    if batch == [] then [] else RedeemFieldBytes(batch[0]) + PackedBytes(batch[1..])
  }

  /** What the contract decodes is the batch, as far as it reads it. */
  ghost predicate DecodesTo(data: seq<byte>, batch: seq<RedeemRecord>) {
    |RedeemBatch(data)| == |batch| && forall i :: 0 <= i < |batch| ==> RedeemBatch(data)[i] == RedeemAsRead(batch[i])
  }

  ghost predicate AllFit(batch: seq<RedeemRecord>) {
    forall i :: 0 <= i < |batch| ==> RedeemFits(batch[i])
  }

  lemma BytesOfUnit()
    ensures Bytes(0, 4) == [0, 0, 0, 0] && Bytes(1, 4) == [0, 0, 0, 1]
  {
    BytesSnoc(0, 0);
    BytesSnoc(0, 1);
    BytesSnoc(0, 2);
    BytesSnoc(0, 3);
    BytesSnoc(1, 3);
  }

  lemma UnitFields(r: RedeemRecord)
    requires r.index == 1 && r.u == 0
    ensures RedeemFieldBytes(r)[..8] == [0, 0, 0, 1, 0, 0, 0, 0]
  {
    BytesOfUnit();
    RedeemFields(r);
    var b := RedeemFieldBytes(r);
    assert b[..8] == b[0..4] + b[4..8];
  }

  /** Read one byte late, its index is another one. */
  lemma UnitReadLate(data: seq<byte>, offset: nat)
    requires offset + 8 <= |data| && data[offset..offset + 8] == [0, 0, 0, 1, 0, 0, 0, 0]
    ensures Word(data, offset + 1, 4) == 256
  {
    var o := offset + 1;
    assert data[o] == data[offset..offset + 8][1] && data[o + 1] == data[offset..offset + 8][2];
    assert data[o + 2] == data[offset..offset + 8][3] && data[o + 3] == data[offset..offset + 8][4];
    WordSnoc(data, o, 0);
    WordSnoc(data, o, 1);
    WordSnoc(data, o, 2);
    WordSnoc(data, o, 3);
  }

  lemma SecondPacked(batch: seq<RedeemRecord>)
    requires |batch| > 1
    ensures PackedBytes(batch) == RedeemFieldBytes(batch[0]) + (RedeemFieldBytes(batch[1]) + PackedBytes(batch[2..]))
  {
    assert batch[1..][1..] == batch[2..];
  }

  /** The second record is looked for at byte 165 and lies at byte 164. */
  lemma {:induction false} SecondPackedMisread(header: seq<byte>, batch: seq<RedeemRecord>)
    requires |header| == 26 && |batch| > 1 && batch[1].index == 1 && batch[1].u == 0
    ensures Word(header + PackedBytes(batch), 165, 4) == 256
  {
    var first, second, rest := RedeemFieldBytes(batch[0]), RedeemFieldBytes(batch[1]), PackedBytes(batch[2..]);
    SecondPacked(batch);
    Associate(header, first, second + rest);
    UnitFields(batch[1]);
    StartsBehind(header + first, second, rest);
    UnitReadLate(header + PackedBytes(batch), 164);
  }

  lemma StartsBehind(before: seq<byte>, record: seq<byte>, rest: seq<byte>)
    requires |record| >= 8
    ensures (before + (record + rest))[|before|..|before| + 8] == record[..8]
  {
    SliceBehind(before, record + rest, 0, 8);
    assert (record + rest)[0..8] == record[..8];
  }

  lemma {:induction false} OnePackedReadBack(header: seq<byte>, batch: seq<RedeemRecord>)
    requires |header| == 26 && |batch| == 1 && AllFit(batch)
    ensures RedeemRecordAt(header + PackedBytes(batch), 0) == RedeemAsRead(batch[0])
  {
    assert PackedBytes(batch[1..]) == [];
    assert PackedBytes(batch)[0..138] == RedeemFieldBytes(batch[0]);
    SliceBehind(header, PackedBytes(batch), 0, 138);
    RedeemReadBackAt(header + PackedBytes(batch), 0, 26, batch[0]);
  }

  lemma {:induction false} AtMostOnePacked(selector: seq<byte>, to: Address, batch: seq<RedeemRecord>)
    requires |selector| == 4 && to < Pow256(20) && |batch| <= 1 && AllFit(batch)
    ensures DecodesTo(Header(selector, |batch|, to) + PackedBytes(batch), batch)
  {
    var header := Header(selector, |batch|, to);
    assert (header + PackedBytes(batch))[..26] == header;
    assert Pow256(2) > 1;
    HeaderReadBack(header + PackedBytes(batch), selector, |batch|, to);
    if |batch| == 1 {
      OnePackedReadBack(header, batch);
    }
  }

  lemma DecodedSecond(data: seq<byte>, batch: seq<RedeemRecord>)
    requires |batch| > 1 && DecodesTo(data, batch)
    ensures Word(data, 165, 4) == batch[1].index
  {
    LoadShiftReadsField(data, 165, 4);
    assert RedeemBatch(data)[1] == RedeemRecordAt(data, 1);
  }

  lemma {:induction false} UnitsMisread(header: seq<byte>, batch: seq<RedeemRecord>)
    requires |header| == 26 && |batch| > 1 && batch[1].index == 1 && batch[1].u == 0
    ensures !DecodesTo(header + PackedBytes(batch), batch)
  {
    SecondPackedMisread(header, batch);
    if DecodesTo(header + PackedBytes(batch), batch) {
      DecodedSecond(header + PackedBytes(batch), batch);
    }
  }

  lemma UnitFits(r: RedeemRecord)
    requires r == RedeemRecord(1, 0, Signature(0, 0, 0), Signature(0, 0, 0))
    ensures RedeemFits(r)
  {
    assert Pow256(4) == 256 * Pow256(3);
  }

  lemma {:induction false} MorePackedMisread(selector: seq<byte>, to: Address, n: nat) returns (batch: seq<RedeemRecord>)
    requires |selector| == 4 && n > 1
    ensures |batch| == n && AllFit(batch) && !DecodesTo(Header(selector, n, to) + PackedBytes(batch), batch)
  {
    var none := Signature(0, 0, 0);
    var r := RedeemRecord(1, 0, none, none);
    batch := seq(n, i => r);
    UnitFits(r);
    UnitsMisread(Header(selector, n, to), batch);
  }

  /**
   Laid out by their fields alone, without the extra byte, the records of every batch of n
   are decoded exactly when n is at most one.
   */
  lemma {:induction false} PackedRoundTripIff(selector: seq<byte>, to: Address, n: nat)
    requires |selector| == 4 && to < Pow256(20)
    ensures (forall batch :: |batch| == n && AllFit(batch) ==>
               DecodesTo(Header(selector, n, to) + PackedBytes(batch), batch))
            <==> n <= 1
  {
    if n <= 1 {
      forall batch | |batch| == n && AllFit(batch) ensures DecodesTo(Header(selector, n, to) + PackedBytes(batch), batch) {
        AtMostOnePacked(selector, to, batch);
      }
    } else {
      var batch := MorePackedMisread(selector, to, n);
    }
  }

  /** The burn layout is exactly as long as its fields. */
  lemma {:induction false} BurnRoundTrip(selector: seq<byte>, to: Address, batch: seq<BurnRecord>)
    requires |selector| == 4 && to < Pow256(20) && |batch| < Pow256(2)
    requires forall i :: 0 <= i < |batch| ==> BurnFits(batch[i])
    ensures var data := Header(selector, |batch|, to) + BurnRecordsBytes(batch);
            && RecipientOf(data) == to
            && |BurnBatch(data)| == |batch|
            && forall i :: 0 <= i < |batch| ==> BurnBatch(data)[i] == BurnAsRead(batch[i])
  {
    var header := Header(selector, |batch|, to);
    var data := header + BurnRecordsBytes(batch);
    assert data[..26] == header;
    HeaderReadBack(data, selector, |batch|, to);
    forall i | 0 <= i < |batch| ensures BurnRecordAt(data, i) == BurnAsRead(batch[i]) {
      BurnRecordInPlace(header, batch, i);
    }
  }

  /** A signature survives the contract's reading exactly when its v is the top byte of s. */
  lemma {:induction false} RecoveryByteSurvivesIff(data: seq<byte>, offset: nat, g: Signature)
    requires SignatureFits(g)
    requires offset + 65 <= |data| && data[offset..offset + 65] == SignatureBytes(g)
    ensures SignatureAt(data, offset) == g <==> g.v == g.s / Pow256(31)
  {
    QuotientIsDivision(g.s, Pow256(31));
    SignatureReadBack(data, offset, g);
  }
}
