/** The parent's side of the append-only file: feeding commands into aof_buf and the rewrite buffer, and writing aof_buf
    out with recovery from short writes. */
module AofFlush {
  import opened AofFormat
  import opened AofReplay
  import opened AofExpire
  import opened AofFeed
  import opened AofBuffers

  datatype FsyncPolicy = No | EverySec | Always

  /** What one write(2) returns: interrupted, failed, or some of the bytes. */
  datatype WriteResult = Interrupted | Error | Took(n: nat)

  /** "*2\r\n$6\r\nSELECT\r\n$" */
  const SELECT_HEAD: Bytes := [42, 50, 13, 10, 36, 54, 13, 10, 83, 69, 76, 69, 67, 84, 13, 10, 36]

  lemma SelectText(db: nat)
    ensures SELECT_HEAD + Decimal(|Decimal(db)|) + CRLF + Decimal(db) + CRLF == Command(SelectCommand(db))
  {
    hide Decimal, Line, Bulk, Bulks, Command;
    var digits := Decimal(db);
    SelectHead();
    SelectBulks(digits);
    BulkText(digits);
    var head := Line(STAR, 2) + Bulk(SELECT);
    assert Command(SelectCommand(db)) == head + Bulk(digits);
    assert head + ([DOLLAR] + Decimal(|digits|) + CRLF + digits + CRLF)
        == head + [DOLLAR] + Decimal(|digits|) + CRLF + digits + CRLF;
  }

  lemma SelectHead()
    ensures Line(STAR, 2) + Bulk(SELECT) + [DOLLAR] == SELECT_HEAD
  {
    hide Decimal;
    SmallDecimals();
  }

  lemma SelectBulks(digits: Bytes)
    ensures Command([SELECT, digits]) == Line(STAR, 2) + Bulk(SELECT) + Bulk(digits)
  {
    hide Line, Bulk;
    assert [SELECT, digits][1..] == [digits] && [digits][1..] == [];
    assert Bulks([digits]) == Bulk(digits) + Bulks([]);
    assert Bulks([digits]) == Bulk(digits);
  }

  lemma BulkText(arg: Bytes)
    ensures Bulk(arg) == [DOLLAR] + Decimal(|arg|) + CRLF + arg + CRLF
  {
    hide Decimal;
  }

  lemma SmallDecimals()
    ensures Decimal(2) == [50] && Decimal(6) == [54]
  {
  }

  lemma LogOfFed(selected: int, db: nat, argv: Argv)
    ensures Log(FedCommands(selected, db, argv))
            == (if db != selected then Command(SelectCommand(db)) else []) + Command(argv)
  {
    hide Command, SelectCommand;
    assert [argv][1..] == [];
    assert Log([argv]) == Command(argv) + Log([]);
    if db != selected {
      var commands := [SelectCommand(db)] + [argv];
      assert commands[1..] == [argv];
    } else {
      assert [] + [argv] == [argv];
    }
  }

  class Server {
    var on: bool            // aof_state is AOF_ON
    var rewriting: bool     // a rewrite child exists
    var selected: int       // aof_selected_db
    var buf: Bytes          // aof_buf
    var file: Bytes         // what the file behind aof_fd holds
    var size: nat           // aof_current_size
    var lastWriteOk: bool   // aof_last_write_status is C_OK
    var postponedStart: int // aof_flush_postponed_start
    var fsyncOffset: nat
    var lastFsync: int
    const rewrite: RewriteBuffer

    ghost predicate Valid()
      reads this, rewrite, rewrite.blocks, set b | b in rewrite.blocks :: b.buf
    {
      rewrite.Valid() && size == |file|
    }

    constructor (on: bool, now: int)
      ensures Valid() && this.on == on && selected == -1 && buf == [] && file == []
    {
      this.on, rewriting, selected, buf, file, size := on, false, -1, [], [], 0;
      lastWriteOk, postponedStart, fsyncOffset, lastFsync := true, 0, 0, now;
      rewrite := new RewriteBuffer();
    }

    /** feedAppendOnlyFile; `proc` is the function behind the command, and now the time. */
    method Feed(db: nat, proc: Proc, argv: Argv, now: int)
      requires Valid() && ArityOk(proc, argv)
      modifies `buf, `selected, rewrite, rewrite.blocks, set b | b in rewrite.blocks :: b.buf
      ensures Valid() && selected == db
      ensures var bytes := Log(FedCommands(old(selected), db, Rewritten(proc, argv, now)));
              && buf == (if on then old(buf) + bytes else old(buf))
              && rewrite.Contents() == (if rewriting then old(rewrite.Contents()) + bytes else old(rewrite.Contents()))
    {
      hide Log, Command, FedCommands, Flat, Rewritten, ArityOk;
      LogOfFed(selected, db, Rewritten(proc, argv, now));
      var text: Bytes := [];
      if db != selected {
        var digits := Decimal(db);
        SelectText(db);
        text := SELECT_HEAD + Decimal(|digits|) + CRLF + digits + CRLF;
        selected := db;
      }
      text := CatFedCommand(text, proc, argv, now);
      if on { buf := buf + text; }
      if rewriting { rewrite.Append(text); }
    }

    /** aofWrite: `results` are what the calls of write(2) return; a call beyond them takes everything. */
    method AofWrite(data: Bytes, results: seq<WriteResult>) returns (total: int)
      modifies `file
      ensures -1 <= total <= |data| && (total == -1 || data == [] || total > 0)
      ensures file == old(file) + data[..if total < 0 then 0 else total]
    {
      var calls, done := 0, 0;
      while done < |data|
        invariant 0 <= done <= |data| && calls <= |results|
        invariant file == old(file) + data[..done]
        decreases |results| - calls, |data| - done
      {
        var result := if calls < |results| then results[calls] else Took(|data| - done);
        if calls < |results| { calls := calls + 1; }
        match result {
          case Interrupted =>
          case Error => return if done > 0 then done else -1;
          case Took(n) =>
            var k := if n < |data| - done then n else |data| - done;
            file := file + data[done..done + k];
            done := done + k;
            assert data[..done - k] + data[done - k..done] == data[..done];
        }
      }
      total := done;
    }

    /** The write of flushAppendOnlyFile and its recovery: a short write is cut off again, or, when that fails, taken out
        of the buffer. Returns false when the server exits. */
    method WriteBuffer(policy: FsyncPolicy, results: seq<WriteResult>, truncates: bool) returns (alive: bool, all: bool)
      requires Valid() && buf != []
      modifies `file, `size, `buf, `lastWriteOk, `postponedStart
      ensures old(file) <= file && postponedStart == 0
      ensures alive ==> Valid() && file + buf == old(file) + old(buf) && lastWriteOk == all
      ensures alive && all ==> buf == []
      ensures alive && !all ==> !policy.Always? && (truncates ==> file == old(file) && buf == old(buf))
      ensures !alive ==> policy.Always? && !all && (truncates ==> file == old(file))
    {
      var nwritten := AofWrite(buf, results);
      postponedStart := 0;
      all := nwritten == |buf|;
      if !all {
        if nwritten != -1 && truncates {
          assert (old(file) + buf[..nwritten])[..size] == old(file);
          file := file[..size];
          nwritten := -1;
        }
        if policy.Always? { return false, all; }
        lastWriteOk := false;
        if nwritten > 0 {
          size := size + nwritten;
          assert buf == buf[..nwritten] + buf[nwritten..];
          buf := buf[nwritten..];
        }
      } else {
        lastWriteOk := true;
        size := size + nwritten;
        assert buf[..nwritten] == buf;
        buf := [];
      }
      alive := true;
    }

    /** The end of flushAppendOnlyFile: fsync now, in the background, or not. */
    method TryFsync(policy: FsyncPolicy, now: int, syncing: bool, noFsync: bool, fsyncs: bool) returns (alive: bool)
      modifies `fsyncOffset, `lastFsync
      ensures fsyncOffset == old(fsyncOffset) || fsyncOffset == size
      ensures alive && policy.Always? && !noFsync ==> fsyncOffset == size && lastFsync == now
      ensures !alive ==> policy.Always? && !fsyncs
    {
      alive := true;
      if noFsync { return; }
      if policy.Always? {
        if !fsyncs { return false; }
        fsyncOffset, lastFsync := size, now;
      } else if policy.EverySec? && now > lastFsync {
        if !syncing { fsyncOffset := size; }
        lastFsync := now;
      }
    }

    /** flushAppendOnlyFile. Whatever the writes, the truncation and the syncs do, while the server lives no byte of the
        file and the buffer is lost, repeated or reordered, and aof_current_size is the size of the file. */
    method Flush(policy: FsyncPolicy, force: bool, now: int, syncing: bool, noFsync: bool,
                 results: seq<WriteResult>, truncates: bool, fsyncs: bool) returns (alive: bool)
      requires Valid()
      modifies `file, `size, `buf, `lastWriteOk, `postponedStart, `fsyncOffset, `lastFsync
      ensures old(file) <= file
      ensures alive ==> Valid() && file + buf == old(file) + old(buf)
      ensures alive && buf != old(buf) ==> buf == [] || (!lastWriteOk && !truncates)
      ensures alive && policy.Always? && old(buf) != [] ==> buf == [] && lastWriteOk
      ensures alive && policy.Always? && old(buf) != [] && !noFsync ==> fsyncOffset == |file|
      ensures !alive ==> policy.Always?
      ensures policy.EverySec? && !force && syncing && (old(postponedStart) == 0 || now - old(postponedStart) < 2)
              ==> alive && file == old(file) && buf == old(buf)
    {
      var sync := policy.EverySec? && syncing;
      if buf == [] {
        if policy.EverySec? && fsyncOffset != size && now > lastFsync && !syncing {
          alive := TryFsync(policy, now, sync, noFsync, fsyncs);
        } else {
          alive := true;
        }
        return;
      }
      if policy.EverySec? && !force && sync {
        if postponedStart == 0 {
          postponedStart := now;
          return true;
        } else if now - postponedStart < 2 {
          return true;
        }
      }
      var all;
      alive, all := WriteBuffer(policy, results, truncates);
      if alive && all {
        alive := TryFsync(policy, now, sync, noFsync, fsyncs);
      }
    }
  }
}
