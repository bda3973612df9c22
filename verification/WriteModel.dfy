/**
 Writing to a file, the intent log records that describe the writes, and their replay.
 */
module WriteModel {

  newtype byte = x: int | 0 <= x < 256

  type Bytes = seq<byte>

  const SPA_MAXBLOCKSIZE: nat := 131072
  const IMMEDIATE_WRITE_SIZE: nat := 32768

  /** What is left of the largest block after the trailer of a log block (184 bytes) and the header of a write record
      (192 bytes). */
  const ZIL_MAX_LOG_DATA: nat := SPA_MAXBLOCKSIZE - 184 - 192

  datatype WriteState = Indirect | Copied | NeedCopy

  /** A TX_WRITE record. The data is what the file held in that range when the record was made. */
  datatype Record = Record(off: nat, state: WriteState, data: Bytes)

  // ----- files -----

  function Zeros(n: nat): Bytes {
    seq(n, i => 0)
  }

  /** The file with `data` at `off`. A gap after the old end reads as zeros. */
  function Overwrite(file: Bytes, off: nat, data: Bytes): Bytes {
    if off <= |file| then file[..off] + data + (if off + |data| <= |file| then file[off + |data|..] else [])
    else file + Zeros(off - |file|) + data
  }

  lemma OverwriteAt(file: Bytes, off: nat, data: Bytes, i: nat)
    requires data != []
    ensures |Overwrite(file, off, data)| == if off + |data| <= |file| then |file| else off + |data|
    ensures i < |Overwrite(file, off, data)| ==>
              Overwrite(file, off, data)[i] ==
                if off <= i < off + |data| then data[i - off] else if i < |file| then file[i] else 0
  {
  }

  lemma OverwriteReads(file: Bytes, off: nat, data: Bytes)
    requires data != []
    ensures off + |data| <= |Overwrite(file, off, data)|
    ensures Overwrite(file, off, data)[off..off + |data|] == data
  {
  }

  /** Two writes in a row, one behind the other, are one write. */
  lemma OverwriteTwice(file: Bytes, off: nat, a: Bytes, b: Bytes)
    requires a != [] && b != []
    ensures Overwrite(Overwrite(file, off, a), off + |a|, b) == Overwrite(file, off, a + b)
  {
    var one, two := Overwrite(Overwrite(file, off, a), off + |a|, b), Overwrite(file, off, a + b);
    forall i | 0 <= i < |two| ensures i < |one| && one[i] == two[i] {
      OverwriteAt(file, off, a + b, i);
      OverwriteAt(file, off, a, i);
      OverwriteAt(Overwrite(file, off, a), off + |a|, b, i);
    }
    OverwriteAt(file, off, a + b, 0);
    OverwriteAt(file, off, a, 0);
    OverwriteAt(Overwrite(file, off, a), off + |a|, b, 0);
  }

  /** Writing more over a beginning that was written already. */
  lemma OverwriteAgain(file: Bytes, off: nat, a: Bytes, b: Bytes)
    requires a != []
    ensures Overwrite(Overwrite(file, off, a), off, a + b) == Overwrite(file, off, a + b)
  {
    var one, two := Overwrite(Overwrite(file, off, a), off, a + b), Overwrite(file, off, a + b);
    forall i | 0 <= i < |two| ensures i < |one| && one[i] == two[i] {
      OverwriteAt(file, off, a + b, i);
      OverwriteAt(file, off, a, i);
      OverwriteAt(Overwrite(file, off, a), off, a + b, i);
    }
    OverwriteAt(file, off, a + b, 0);
    OverwriteAt(file, off, a, 0);
    OverwriteAt(Overwrite(file, off, a), off, a + b, 0);
  }

  // ----- records -----

  /** The records lie one behind the other from `off` on, and none is empty. */
  predicate Tiles(records: seq<Record>, off: nat) {
    records == [] ||
    (records[0].off == off && records[0].data != [] && Tiles(records[1..], off + |records[0].data|))
  }

  function Data(records: seq<Record>): Bytes {
    if records == [] then [] else records[0].data + Data(records[1..])
  }

  function Replay(file: Bytes, records: seq<Record>): Bytes
    decreases |records|
  {
    if records == [] then file else Replay(Overwrite(file, records[0].off, records[0].data), records[1..])
  }

  /** A record fits into a log block, unless it points to the data; then it is within one block of the file. */
  predicate Fits(r: Record, blksz: nat) {
    if r.state == Indirect then IMMEDIATE_WRITE_SIZE < |r.data| <= blksz else |r.data| <= ZIL_MAX_LOG_DATA
  }

  predicate AllFit(records: seq<Record>, blksz: nat) {
    records == [] || (Fits(records[0], blksz) && AllFit(records[1..], blksz))
  }

  lemma {:induction false} TilesAppend(a: seq<Record>, b: seq<Record>, off: nat)
    requires Tiles(a, off) && Tiles(b, off + |Data(a)|)
    ensures Tiles(a + b, off) && Data(a + b) == Data(a) + Data(b)
  {
    if a == [] {
      assert a + b == b;
    } else {
      assert (a + b)[1..] == a[1..] + b;
      assert off + |a[0].data| + |Data(a[1..])| == off + |Data(a)|;
      TilesAppend(a[1..], b, off + |a[0].data|);
    }
  }

  lemma {:induction false} FitAppend(a: seq<Record>, b: seq<Record>, blksz: nat)
    requires AllFit(a, blksz) && AllFit(b, blksz)
    ensures AllFit(a + b, blksz)
  {
    if a == [] {
      assert a + b == b;
    } else {
      assert (a + b)[1..] == a[1..] + b;
      FitAppend(a[1..], b, blksz);
    }
  }

  /** Replaying records that lie one behind the other is one write of all their data. */
  lemma {:induction false} ReplayIsWrite(file: Bytes, records: seq<Record>, off: nat)
    requires Tiles(records, off) && records != []
    ensures Data(records) != [] && Replay(file, records) == Overwrite(file, off, Data(records))
    decreases |records|
  {
    var r, rest := records[0], records[1..];
    var first := Overwrite(file, off, r.data);
    assert Replay(file, records) == Replay(first, rest);
    if rest == [] {
      assert r.data + [] == r.data;
    } else {
      ReplayIsWrite(first, rest, off + |r.data|);
      OverwriteTwice(file, off, r.data, Data(rest));
    }
  }

  lemma Associates(a: Bytes, b: Bytes, c: Bytes)
    ensures a + (b + c) == (a + b) + c
  {
  }

  lemma {:induction false} TilesPrefix(records: seq<Record>, off: nat, k: nat)
    requires Tiles(records, off) && k <= |records|
    ensures Tiles(records[..k], off) && Data(records) == Data(records[..k]) + Data(records[k..])
  {
    if k == 0 {
      assert records[..0] == [] && records[0..] == records;
    } else {
      var rest, front := records[1..], records[..k];
      TilesPrefix(rest, off + |records[0].data|, k - 1);
      assert front[1..] == rest[..k - 1] && rest[k - 1..] == records[k..];
      Associates(records[0].data, Data(rest[..k - 1]), Data(rest[k - 1..]));
    }
  }

  /** Replay can be broken off anywhere and started over. */
  lemma {:induction false} ReplayRestarts(file: Bytes, records: seq<Record>, off: nat, k: nat)
    requires Tiles(records, off) && k <= |records|
    ensures Replay(Replay(file, records[..k]), records) == Replay(file, records)
  {
    TilesPrefix(records, off, k);
    if k > 0 {
      ReplayIsWrite(file, records[..k], off);
      ReplayIsWrite(Replay(file, records[..k]), records, off);
      ReplayIsWrite(file, records, off);
      OverwriteAgain(file, off, Data(records[..k]), Data(records[k..]));
    }
  }
}
