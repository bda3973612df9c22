/**
 The loops of the write path: splitting a write into chunks, each with its transaction, splitting each chunk into log
 records, and replaying the records.
 */
module WriteLog {
  import opened WriteModel

  function Min(a: nat, b: nat): nat {
    if a < b then a else b
  }

  /** Does the record only point to the data? */
  predicate IsIndirect(resid: nat, blksz: nat, slogging: bool) {
    resid > IMMEDIATE_WRITE_SIZE && !slogging && resid <= blksz
  }

  /** How the data of the `i`-th record gets into the log; after `readable` copies a read fails, and from then on data
      is fetched when it is needed. */
  function StateOf(i: nat, indirect: bool, sync: bool, readable: nat): WriteState {
    if indirect then Indirect else if sync && i < readable then Copied else NeedCopy
  }

  predicate StatesAre(records: seq<Record>, indirect: bool, sync: bool, readable: nat) {
    forall i :: 0 <= i < |records| ==> records[i].state == StateOf(i, indirect, sync, readable)
  }

  lemma {:induction false} OneMore(records: seq<Record>, r: Record, off: nat, blksz: nat)
    requires Tiles(records, off) && r.off == off + |Data(records)| && r.data != []
    requires AllFit(records, blksz) && Fits(r, blksz)
    ensures Tiles(records + [r], off) && Data(records + [r]) == Data(records) + r.data && AllFit(records + [r], blksz)
  {
    assert [r][1..] == [];
    assert r.data + [] == r.data;
    TilesAppend(records, [r], off);
    FitAppend(records, [r], blksz);
  }

  /** zfs_log_write for `resid` bytes that are in the file at `off`. The records describe exactly those bytes, except
      that nothing is logged for a file without a name. */
  method LogWrite(file: Bytes, off: nat, resid: nat, blksz: nat, sync: bool, slogging: bool, readable: nat,
                  unlinked: bool)
    returns (records: seq<Record>)
    requires off + resid <= |file|
    ensures Tiles(records, off) && AllFit(records, blksz)
    ensures Data(records) == if unlinked then [] else file[off..off + resid]
    ensures StatesAre(records, IsIndirect(resid, blksz, slogging), sync, readable)
    ensures forall r :: r in records ==> (r.state == Indirect <==> resid > 32768 && !slogging && resid <= blksz)
    ensures forall r :: r in records && r.state == Copied ==> sync
    ensures forall i :: 0 <= i < |records| && sync && i < readable ==> records[i].state != NeedCopy
    ensures resid > 32768 && !slogging && resid <= blksz && !unlinked ==> |records| == 1
  {
    if unlinked {
      return [];
    }
    var indirect := IsIndirect(resid, blksz, slogging);
    var at: nat, left: nat := off, resid;
    var copying := sync;
    records := [];
    while left > 0
      invariant off <= at && at + left == off + resid
      invariant Tiles(records, off) && Data(records) == file[off..at] && AllFit(records, blksz)
      invariant StatesAre(records, indirect, sync, readable)
      invariant !indirect ==> (copying <==> sync && (records == [] || |records| - 1 < readable))
      invariant indirect ==> if left == resid then records == [] else left == 0 && |records| == 1
    {
      var len := if !indirect && left > ZIL_MAX_LOG_DATA then SPA_MAXBLOCKSIZE / 2 else left;
      if !indirect && copying && |records| >= readable {
        copying := false;
      }
      var state := if indirect then Indirect else if copying then Copied else NeedCopy;
      var r := Record(at, state, file[at..at + len]);
      OneMore(records, r, off, blksz);
      assert file[off..at] + file[at..at + len] == file[off..at + len];
      records := records + [r];
      at, left := at + len, left - len;
    }
  }

  /** What became of one turn of the write loop: no transaction, a transaction to be tried again, or some bytes written
      (an error if fewer than asked for). */
  datatype Turn = NoTx | Restart | Wrote(k: nat)

  /** How many bytes are to be written before the limit. */
  function Clip(off: nat, n: nat, limit: nat): (r: nat)
    ensures r <= n && (r > 0 ==> off + r <= limit)
    ensures r < n ==> off + r >= limit
  {
    if off >= limit then 0 else Min(n, limit - off)
  }

  /** How far `at` is into its block. */
  function Phase(at: nat, size: nat): nat
    requires size > 0
  {
    if at < size then at else Phase(at - size, size)
  }

  lemma NextMultiple(n: nat, size: nat)
    ensures (n + 1) * size == n * size + size
  {
  }

  /** Blocks begin at the multiples of their size. */
  lemma {:induction false} PhaseOf(at: nat, size: nat) returns (block: nat)
    requires size > 0
    ensures at == block * size + Phase(at, size) && Phase(at, size) < size
  {
    if at < size {
      block := 0;
    } else {
      var before := PhaseOf(at - size, size);
      block := before + 1;
      NextMultiple(before, size);
    }
  }

  function ChunkSize(at: nat, left: nat, maxBlksz: nat): (n: nat)
    requires maxBlksz > 0
    ensures n <= left && n <= maxBlksz && (left > 0 ==> n > 0)
  {
    PhaseBelow(at, maxBlksz);
    Min(left, maxBlksz - Phase(at, maxBlksz))
  }

  lemma {:induction false} PhaseBelow(at: nat, size: nat)
    requires size > 0
    ensures Phase(at, size) < size
  {
    if at >= size {
      PhaseBelow(at - size, size);
    }
  }

  /** A chunk stays inside its block of the largest size, and ends there unless the data ends before. */
  lemma ChunkFits(at: nat, left: nat, maxBlksz: nat) returns (block: nat)
    requires maxBlksz > 0
    ensures var n, end := ChunkSize(at, left, maxBlksz), block * maxBlksz + maxBlksz;
            block * maxBlksz <= at && at + n <= end && (n < left ==> at + n == end)
  {
    block := PhaseOf(at, maxBlksz);
  }

  function WrittenTo(file: Bytes, off: nat, data: Bytes): Bytes {
    if data == [] then file else Overwrite(file, off, data)
  }

  /** One more chunk behind what has been written so far. */
  lemma NextChunk(file: Bytes, off: nat, data: Bytes, done: nat, k: nat)
    requires done + k <= |data| && k > 0
    ensures Overwrite(WrittenTo(file, off, data[..done]), off + done, data[done..done + k]) ==
            WrittenTo(file, off, data[..done + k])
    ensures data[..done] + data[done..done + k] == data[..done + k]
  {
    if done > 0 {
      OverwriteTwice(file, off, data[..done], data[done..done + k]);
      assert data[..done] + data[done..done + k] == data[..done + k];
    }
  }

  /** A chunk has been written and its records logged. */
  lemma ChunkLogged(records: seq<Record>, more: seq<Record>, off: nat, blksz: nat)
    requires Tiles(records, off) && Tiles(more, off + |Data(records)|) && AllFit(records, blksz) && AllFit(more, blksz)
    ensures Tiles(records + more, off) && Data(records + more) == Data(records) + Data(more)
    ensures AllFit(records + more, blksz)
  {
    TilesAppend(records, more, off);
    FitAppend(records, more, blksz);
  }

  /** One chunk and its log records. */
  method WriteChunk(file: Bytes, at: nat, chunk: Bytes, blksz: nat, sync: bool, slogging: bool, readable: nat,
                    unlinked: bool)
    returns (file': Bytes, records: seq<Record>)
    requires chunk != []
    ensures file' == Overwrite(file, at, chunk)
    ensures Tiles(records, at) && AllFit(records, blksz) && Data(records) == if unlinked then [] else chunk
  {
    OverwriteReads(file, at, chunk);
    file' := Overwrite(file, at, chunk);
    records := LogWrite(file', at, |chunk|, blksz, sync, slogging, readable, unlinked);
  }

  /** So far `written` bytes of the data are in the file, and the records describe the first `logged` of them. */
  predicate Progress(file: Bytes, off: nat, data: Bytes, written: nat, file': Bytes, logged: nat, records: seq<Record>,
                     blksz: nat) {
    && logged <= written <= |data| && file' == WrittenTo(file, off, data[..written])
    && Tiles(records, off) && Data(records) == data[..logged] && AllFit(records, blksz)
  }

  /** One turn that writes. It is logged unless the file has lost its last name. */
  method WriteTurn(file: Bytes, off: nat, data: Bytes, done: nat, k: nat, blksz: nat, sync: bool, slogging: bool,
                   readable: nat, unlinked: bool, ghost before: Bytes, ghost logged: nat, records: seq<Record>)
    returns (file': Bytes, records': seq<Record>)
    requires k > 0 && done + k <= |data| && Progress(before, off, data, done, file, logged, records, blksz)
    requires !unlinked ==> logged == done
    ensures Progress(before, off, data, done + k, file', if unlinked then logged else done + k, records', blksz)
  {
    NextChunk(before, off, data, done, k);
    var more;
    file', more := WriteChunk(file, off + done, data[done..done + k], blksz, sync, slogging, readable, unlinked);
    if unlinked {
      records' := records;
    } else {
      ChunkLogged(records, more, off, blksz);
      records' := records + more;
    }
  }

  /** What the turns attempted to write: a turn that is tried again counts for nothing, and without a transaction the
      loop ends. */
  function Attempts(turns: seq<Turn>): seq<nat> {
    if turns == [] || turns[0].NoTx? then []
    else if turns[0].Restart? then Attempts(turns[1..])
    else [turns[0].k] + Attempts(turns[1..])
  }

  /** Where the attempts get to from `at`, if the data ends at `end`: full chunks up to the first that falls short. */
  function Reach(at: nat, end: nat, attempts: seq<nat>, maxBlksz: nat): nat
    requires maxBlksz > 0 && at <= end
    decreases |attempts|
  {
    if at == end || attempts == [] then at
    else
      var nbytes := ChunkSize(at, end - at, maxBlksz);
      if attempts[0] < nbytes then at + attempts[0] else Reach(at + nbytes, end, attempts[1..], maxBlksz)
  }

  /** Restarts make no difference. */
  lemma {:induction false} RestartsIgnored(before: seq<Turn>, after: seq<Turn>)
    ensures Attempts(before + [Restart] + after) == Attempts(before + after)
  {
    if before == [] {
      assert before + [Restart] + after == [Restart] + after && before + after == after;
      assert ([Restart] + after)[1..] == after;
    } else {
      RestartsIgnored(before[1..], after);
      assert (before + [Restart] + after)[1..] == before[1..] + [Restart] + after;
      assert (before + after)[1..] == before[1..] + after;
    }
  }

  /** Attempts that each manage a full chunk, as many as there are bytes, write everything. */
  lemma {:induction false} FullAttempts(at: nat, end: nat, attempts: seq<nat>, maxBlksz: nat)
    requires maxBlksz > 0 && at <= end && end - at <= |attempts|
    requires forall i :: 0 <= i < |attempts| ==> attempts[i] >= maxBlksz
    ensures Reach(at, end, attempts, maxBlksz) == end
    decreases |attempts|
  {
    if at < end {
      FullAttempts(at + ChunkSize(at, end - at, maxBlksz), end, attempts[1..], maxBlksz);
    }
  }

  /** No turn goes without a transaction, and none falls short. */
  predicate Unfailing(turns: seq<Turn>, maxBlksz: nat) {
    turns == [] ||
    (!turns[0].NoTx? && (turns[0].Wrote? ==> turns[0].k >= maxBlksz) && Unfailing(turns[1..], maxBlksz))
  }

  function Writes(turns: seq<Turn>): nat {
    if turns == [] then 0 else (if turns[0].Wrote? then 1 else 0) + Writes(turns[1..])
  }

  lemma {:induction false} UnfailingAttempts(turns: seq<Turn>, maxBlksz: nat)
    requires Unfailing(turns, maxBlksz)
    ensures |Attempts(turns)| == Writes(turns) && forall i :: 0 <= i < |Attempts(turns)| ==> Attempts(turns)[i] >= maxBlksz
  {
    if turns != [] {
      UnfailingAttempts(turns[1..], maxBlksz);
    }
  }

  /** If nothing fails, everything is written, however often a turn has to be tried again. */
  lemma {:induction false} UnfailingReach(at: nat, end: nat, turns: seq<Turn>, maxBlksz: nat)
    requires maxBlksz > 0 && at <= end && Unfailing(turns, maxBlksz) && end - at <= Writes(turns)
    ensures Reach(at, end, Attempts(turns), maxBlksz) == end
  {
    UnfailingAttempts(turns, maxBlksz);
    FullAttempts(at, end, Attempts(turns), maxBlksz);
  }

  lemma {:induction false} AttemptsFrom(turns: seq<Turn>, i: nat)
    requires i < |turns|
    ensures Attempts(turns[i..]) ==
            if turns[i].NoTx? then [] else if turns[i].Restart? then Attempts(turns[i + 1..])
            else [turns[i].k] + Attempts(turns[i + 1..])
  {
    assert turns[i..][1..] == turns[i + 1..];
  }

  /** The turns from `i` on that come before turn `until`. */
  function Before(turns: seq<Turn>, i: nat, until: nat): seq<Turn> {
    if i < until && i < |turns| then turns[..Min(until, |turns|)][i..] else []
  }

  lemma {:induction false} BeforeFrom(turns: seq<Turn>, i: nat, until: nat)
    requires i < |turns|
    ensures Attempts(Before(turns, i, until)) ==
            if i >= until || turns[i].NoTx? then []
            else if turns[i].Restart? then Attempts(Before(turns, i + 1, until))
            else [turns[i].k] + Attempts(Before(turns, i + 1, until))
  {
    if i < until {
      var part := turns[..Min(until, |turns|)];
      AttemptsFrom(part, i);
      assert part[i + 1..] == Before(turns, i + 1, until);
    }
  }

  /** One attempt, as the loop sees it: after a short one it has nothing left to do. */
  lemma {:induction false} ReachStep(at: nat, end: nat, k: nat, rest: seq<nat>, maxBlksz: nat, nbytes: nat)
    requires maxBlksz > 0 && at < end && nbytes == ChunkSize(at, end - at, maxBlksz)
    ensures Reach(at, end, [k] + rest, maxBlksz) ==
            if k < nbytes then Reach(at + k, at + k, rest, maxBlksz) else Reach(at + nbytes, end, rest, maxBlksz)
  {
    assert ([k] + rest)[1..] == rest;
  }

  /** Where all attempts, and those before turn `until`, get to from here. */
  predicate Headed(at: nat, end: nat, turns: seq<Turn>, i: nat, until: nat, maxBlksz: nat, all: nat, logged: nat)
    requires maxBlksz > 0
  {
    && i <= |turns| && at <= end && all == Reach(at, end, Attempts(turns[i..]), maxBlksz)
    && (i < until ==> logged == Reach(at, end, Attempts(Before(turns, i, until)), maxBlksz))
    && (i == until ==> logged == at)
  }

  lemma {:induction false} HeadedStart(at: nat, end: nat, turns: seq<Turn>, until: nat, maxBlksz: nat)
    requires maxBlksz > 0 && at <= end
    ensures Headed(at, end, turns, 0, until, maxBlksz, Reach(at, end, Attempts(turns), maxBlksz),
                   Reach(at, end, Attempts(Before(turns, 0, until)), maxBlksz))
  {
    assert turns[0..] == turns;
  }

  lemma {:induction false} HeadedRestart(at: nat, end: nat, turns: seq<Turn>, i: nat, until: nat, maxBlksz: nat,
                                         all: nat, logged: nat)
    requires maxBlksz > 0 && Headed(at, end, turns, i, until, maxBlksz, all, logged) && i < |turns| && turns[i].Restart?
    ensures Headed(at, end, turns, i + 1, until, maxBlksz, all, logged)
  {
    AttemptsFrom(turns, i);
    BeforeFrom(turns, i, until);
  }

  lemma {:induction false} HeadedWrote(at: nat, end: nat, turns: seq<Turn>, i: nat, until: nat, maxBlksz: nat, all: nat,
                                       logged: nat, nbytes: nat)
    requires maxBlksz > 0 && Headed(at, end, turns, i, until, maxBlksz, all, logged) && at < end
    requires i < |turns| && turns[i].Wrote? && nbytes == ChunkSize(at, end - at, maxBlksz)
    ensures var k := turns[i].k;
            if k < nbytes then Headed(at + k, at + k, turns, i + 1, until, maxBlksz, all, logged)
            else Headed(at + nbytes, end, turns, i + 1, until, maxBlksz, all, logged)
  {
    AttemptsFrom(turns, i);
    BeforeFrom(turns, i, until);
    ReachStep(at, end, turns[i].k, Attempts(turns[i + 1..]), maxBlksz, nbytes);
    ReachStep(at, end, turns[i].k, Attempts(Before(turns, i + 1, until)), maxBlksz, nbytes);
  }

  /** The loop ends when nothing is left, when the turns end, and when a turn has no transaction or writes nothing. */
  lemma {:induction false} HeadedEnd(at: nat, end: nat, turns: seq<Turn>, i: nat, until: nat, maxBlksz: nat, all: nat,
                                     logged: nat)
    requires maxBlksz > 0 && Headed(at, end, turns, i, until, maxBlksz, all, logged)
    requires at == end || i == |turns| || turns[i].NoTx? || turns[i] == Wrote(0)
    ensures all == at && (i <= until ==> logged == at)
  {
    if i < |turns| && at < end {
      AttemptsFrom(turns, i);
      BeforeFrom(turns, i, until);
      ReachStep(at, end, 0, Attempts(turns[i + 1..]), maxBlksz, ChunkSize(at, end - at, maxBlksz));
      ReachStep(at, end, 0, Attempts(Before(turns, i + 1, until)), maxBlksz, ChunkSize(at, end - at, maxBlksz));
    }
  }

  /** Replaying what was logged writes it. */
  lemma ReplayLogged(file: Bytes, off: nat, data: Bytes, written: nat, file': Bytes, logged: nat, records: seq<Record>,
                     blksz: nat)
    requires Progress(file, off, data, written, file', logged, records, blksz)
    ensures Replay(file, records) == WrittenTo(file, off, data[..logged])
  {
    if records != [] {
      ReplayIsWrite(file, records, off);
    }
  }

  /** Where the loop stands before turn `i`, apart from the contents: `done` bytes are written, `logged` in the log. */
  predicate Standing(off: nat, turns: seq<Turn>, until: nat, maxBlksz: nat, all: nat, inLog: nat, i: nat, done: nat,
                     end: nat, logged: nat)
    requires maxBlksz > 0
  {
    && Headed(off + done, end, turns, i, until, maxBlksz, all, inLog)
    && (if i <= until then logged == done else off + logged == inLog)
  }

  /** How many bytes the next chunk gets, and where the loop stands then; a short write is the last one. */
  method NextStanding(off: nat, turns: seq<Turn>, until: nat, maxBlksz: nat, ghost all: nat, ghost inLog: nat, i: nat,
                      done: nat, end: nat, logged: nat)
    returns (k: nat, end': nat, logged': nat)
    requires maxBlksz > 0 && Standing(off, turns, until, maxBlksz, all, inLog, i, done, end, logged)
    requires i < |turns| && turns[i].Wrote? && turns[i].k > 0 && off + done < end
    ensures 0 < k && off + done + k <= end' <= end && logged' == if i < until then done + k else logged
    ensures Standing(off, turns, until, maxBlksz, all, inLog, i + 1, done + k, end', logged')
  {
    var nbytes := ChunkSize(off + done, end - (off + done), maxBlksz);
    HeadedWrote(off + done, end, turns, i, until, maxBlksz, all, inLog, nbytes);
    k := Min(turns[i].k, nbytes);
    end' := if k < nbytes then off + done + k else end;
    logged' := if i < until then done + k else logged;
  }

  /** One turn of the loop that writes. */
  method TakeTurn(ghost before: Bytes, file: Bytes, off: nat, data: Bytes, turns: seq<Turn>, until: nat, maxBlksz: nat,
                  blksz: nat, sync: bool, slogging: bool, readable: nat, i: nat, done: nat, end: nat, logged: nat,
                  records: seq<Record>, ghost all: nat, ghost inLog: nat)
    returns (file': Bytes, done': nat, end': nat, logged': nat, records': seq<Record>)
    requires maxBlksz > 0 && Standing(off, turns, until, maxBlksz, all, inLog, i, done, end, logged)
    requires Progress(before, off, data, done, file, logged, records, blksz) && end <= off + |data|
    requires i < |turns| && turns[i].Wrote? && turns[i].k > 0 && off + done < end
    ensures Standing(off, turns, until, maxBlksz, all, inLog, i + 1, done', end', logged') && off + done' <= end' <= end
    ensures Progress(before, off, data, done', file', logged', records', blksz)
  {
    var k;
    k, end', logged' := NextStanding(off, turns, until, maxBlksz, all, inLog, i, done, end, logged);
    done' := done + k;
    file', records' := WriteTurn(file, off, data, done, k, blksz, sync, slogging, readable, i >= until, before, logged,
                                 records);
  }

  /** The loop is over: everything that the attempts manage is done. */
  predicate Arrived(off: nat, all: nat, inLog: nat, done: nat, logged: nat) {
    off + done == all && off + logged == inLog
  }

  lemma {:induction false} StandingEnd(off: nat, turns: seq<Turn>, until: nat, maxBlksz: nat, all: nat, inLog: nat,
                                       i: nat, done: nat, end: nat, logged: nat)
    requires maxBlksz > 0 && Standing(off, turns, until, maxBlksz, all, inLog, i, done, end, logged)
    requires off + done == end || i == |turns| || turns[i].NoTx? || turns[i] == Wrote(0)
    ensures Arrived(off, all, inLog, done, logged)
  {
    HeadedEnd(off + done, end, turns, i, until, maxBlksz, all, inLog);
  }

  /** One turn of the loop, which goes on unless there is no transaction or nothing is written. */
  method AnyTurn(ghost before: Bytes, file: Bytes, off: nat, data: Bytes, turns: seq<Turn>, until: nat, maxBlksz: nat,
                 blksz: nat, sync: bool, slogging: bool, readable: nat, i: nat, done: nat, end: nat, logged: nat,
                 records: seq<Record>, ghost all: nat, ghost inLog: nat)
    returns (more: bool, file': Bytes, done': nat, end': nat, logged': nat, records': seq<Record>)
    requires maxBlksz > 0 && Standing(off, turns, until, maxBlksz, all, inLog, i, done, end, logged)
    requires Progress(before, off, data, done, file, logged, records, blksz) && end <= off + |data|
    requires i < |turns| && off + done < end
    ensures more ==> Standing(off, turns, until, maxBlksz, all, inLog, i + 1, done', end', logged')
    ensures !more ==> Arrived(off, all, inLog, done', logged')
    ensures Progress(before, off, data, done', file', logged', records', blksz) && off + done' <= end' <= end
  {
    more, file', done', end', logged', records' := true, file, done, end, logged, records;
    if turns[i].NoTx? || turns[i] == Wrote(0) {
      StandingEnd(off, turns, until, maxBlksz, all, inLog, i, done, end, logged);
      more := false;
    } else if turns[i].Wrote? {
      file', done', end', logged', records' :=
        TakeTurn(before, file, off, data, turns, until, maxBlksz, blksz, sync, slogging, readable, i, done, end, logged,
                 records, all, inLog);
    } else {
      HeadedRestart(off + done, end, turns, i, until, maxBlksz, all, inLog);
    }
  }

  /** The chunk loop of zfs_write for data that ends at `end`. */
  method WriteLoop(file: Bytes, off: nat, data: Bytes, end: nat, maxBlksz: nat, blksz: nat, sync: bool, slogging: bool,
                   readable: nat, turns: seq<Turn>, until: nat)
    returns (file': Bytes, done: nat, logged: nat, records: seq<Record>)
    requires maxBlksz > 0 && off <= end <= off + |data|
    ensures Progress(file, off, data, done, file', logged, records, blksz) && off + done <= end
    ensures off + done == Reach(off, end, Attempts(turns), maxBlksz)
    ensures off + logged == Reach(off, end, Attempts(Before(turns, 0, until)), maxBlksz)
  {
    ghost var all := Reach(off, end, Attempts(turns), maxBlksz);
    ghost var inLog := Reach(off, end, Attempts(Before(turns, 0, until)), maxBlksz);
    HeadedStart(off, end, turns, until, maxBlksz);
    var i, stop, more := 0, end, true;
    file', done, logged, records := file, 0, 0, [];
    while more && off + done < stop && i < |turns|
      invariant i <= |turns| && off + done <= stop <= end
      invariant if more then Standing(off, turns, until, maxBlksz, all, inLog, i, done, stop, logged)
                else Arrived(off, all, inLog, done, logged)
      invariant Progress(file, off, data, done, file', logged, records, blksz)
      decreases |turns| - i
    {
      more, file', done, stop, logged, records :=
        AnyTurn(file, file', off, data, turns, until, maxBlksz, blksz, sync, slogging, readable, i, done, stop, logged,
                records, all, inLog);
      i := i + 1;
    }
    if more {
      StandingEnd(off, turns, until, maxBlksz, all, inLog, i, done, stop, logged);
    }
  }

  /** zfs_write, whatever becomes of its turns: the file holds as much of the data as the attempts manage, the log
      describes exactly that, and replaying it over the old contents gives the new. If the file loses its last name
      before turn `unlinkedAt`, the log describes what was written until then. */
  method WriteFile(file: Bytes, off: nat, data: Bytes, limit: nat, maxBlksz: nat, blksz: nat, sync: bool,
                   slogging: bool, readable: nat, turns: seq<Turn>, unlinkedAt: nat)
    returns (file': Bytes, written: nat, logged: nat, records: seq<Record>)
    requires maxBlksz > 0
    ensures off + written == Reach(off, off + Clip(off, |data|, limit), Attempts(turns), maxBlksz)
    ensures written <= Clip(off, |data|, limit) && file' == WrittenTo(file, off, data[..written])
    ensures off + logged ==
            Reach(off, off + Clip(off, |data|, limit), Attempts(Before(turns, 0, unlinkedAt)), maxBlksz)
    ensures logged <= written && Tiles(records, off) && Data(records) == data[..logged] && AllFit(records, blksz)
    ensures Replay(file, records) == WrittenTo(file, off, data[..logged])
    ensures unlinkedAt >= |turns| ==> logged == written && Replay(file, records) == file'
    ensures Unfailing(turns, maxBlksz) && Writes(turns) >= |data| ==> written == Clip(off, |data|, limit)
  {
    if Unfailing(turns, maxBlksz) && Writes(turns) >= |data| {
      UnfailingReach(off, off + Clip(off, |data|, limit), turns, maxBlksz);
    }
    file', written, logged, records := WriteLoop(file, off, data, off + Clip(off, |data|, limit), maxBlksz, blksz, sync,
                                                 slogging, readable, turns, unlinkedAt);
    assert unlinkedAt >= |turns| ==> Before(turns, 0, unlinkedAt) == turns;
    ReplayLogged(file, off, data, written, file', logged, records, blksz);
  }

  /** zfs_replay_write on each record in turn. */
  method ReplayLog(file: Bytes, records: seq<Record>) returns (file': Bytes)
    ensures file' == Replay(file, records)
  {
    file' := file;
    var i := 0;
    assert records[0..] == records;
    while i < |records|
      invariant i <= |records| && Replay(file', records[i..]) == Replay(file, records)
    {
      assert records[i..][1..] == records[i + 1..];
      file' := Overwrite(file', records[i].off, records[i].data);
      i := i + 1;
    }
  }
}
