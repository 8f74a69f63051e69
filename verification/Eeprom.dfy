/** The EEPROM commands as they run against a device whose link may stop
    accepting writes at any point, proved to make the writes EepromSpec lists. */
module Eeprom {
  import opened Common
  import opened EepromSpec

  datatype Error = IoError | ImageTooLarge | NoBootloader | VerifyFailed | BadSerial

  const PAGE_SIZE: nat := 0x40

  predicate SerialAccepted(serial: seq<Byte>) {
    |serial| != 0 && |serial| < SERIAL_LENGTH - 1
  }

  /** `construct_eeprom_init_value_vector`. */
  function InitValues(vid: Word, pid: Word): seq<Byte> {
    OLD_SIGNATURE + [pid % 0x100, pid / 0x100, vid % 0x100, vid / 0x100]
  }

  function WordOf(low: int, high: int): int {
    low + 0x100 * high
  }

  class B200 {
    var mem: Memory
    /** How many writes the link still takes; beyond them every write throws. */
    var writesLeft: nat

    constructor (mem: Memory, writesLeft: nat)
      ensures this.mem == mem && this.writesLeft == writesLeft
    {
      this.mem := mem;
      this.writesLeft := writesLeft;
    }

    method ReadEeprom(addr: nat, len: nat) returns (data: seq<Byte>)
      requires addr + len <= EEPROM_SIZE
      ensures data == At(mem, addr, len)
    {
      data := mem[addr..addr + len];
    }

    method WriteEeprom(addr: nat, data: seq<Byte>) returns (ok: bool)
      requires addr + |data| <= EEPROM_SIZE
      modifies this
      ensures ok <==> old(writesLeft) > 0
      ensures ok ==> mem == Put(old(mem), Write(addr, data)) && writesLeft == old(writesLeft) - 1
      ensures !ok ==> mem == old(mem) && writesLeft == 0
    {
      if writesLeft == 0 {
        return false;
      }
      mem := Put(mem, Write(addr, data));
      writesLeft := writesLeft - 1;
      return true;
    }

    /** `k` of the writes `ws` have been made since the memory was `m` and the
        link had `budget` writes left. */
    ghost predicate Made(m: Memory, budget: nat, ws: seq<Write>, k: nat)
      reads this
    {
      k <= |ws| && AllFit(ws) && mem == PutAll(m, ws[..k]) && writesLeft + k == budget
    }

    /** The command made its writes, or as many as the link took. */
    ghost predicate Ran(m: Memory, budget: nat, ws: seq<Write>, ok: bool)
      reads this
    {
      Made(m, budget, ws, Min(budget, |ws|)) && (ok <==> budget >= |ws|)
    }

    /** The next of a command's writes. */
    method Make(addr: nat, data: seq<Byte>, ghost m: Memory, ghost budget: nat, ghost ws: seq<Write>, ghost k: nat)
      returns (ok: bool)
      requires Made(m, budget, ws, k) && k < |ws| && ws[k] == Write(addr, data)
      modifies this
      ensures ok ==> Made(m, budget, ws, k + 1)
      ensures !ok ==> Ran(m, budget, ws, false)
    {
      assert ws[..k + 1][..k] == ws[..k];
      ok := WriteEeprom(addr, data);
    }

    /** `write_eeprom`, then `verify_eeprom`, which always reads back eight bytes. */
    method WriteAndVerify(data: seq<Byte>) returns (r: Result<Unit, Error>)
      requires |data| <= EEPROM_SIZE
      modifies this
      ensures r.Ok? <==> old(writesLeft) > 0 && |data| == 8
      ensures old(writesLeft) > 0 ==>
        mem == Put(old(mem), Write(0, data)) && writesLeft == old(writesLeft) - 1
      ensures old(writesLeft) == 0 ==> mem == old(mem) && writesLeft == 0
      ensures r.Err? ==> r.error == if old(writesLeft) == 0 then IoError else VerifyFailed
    {
      var ok := WriteEeprom(0, data);
      if !ok {
        return Err(IoError);
      }
      var readBytes := ReadEeprom(0, 8);
      var verified := |data| == |readBytes|;
      var i := 0;
      while i < Min(|data|, |readBytes|)
        invariant verified ==> |data| == |readBytes|
        invariant |data| == |readBytes| ==> verified
      {
        if data[i] != readBytes[i] {
          verified := false;
        }
        i := i + 1;
      }
      return if verified then Ok(Unit) else Err(VerifyFailed);
    }

    method HdrAddress() returns (addr: nat)
      ensures addr == DataAddr(mem)
    {
      var signature := ReadEeprom(0, 4);
      addr := if signature == NEW_SIGNATURE then NEW_DATA_ADDR else OLD_DATA_ADDR;
    }

    /** `--load-bootloader`: migrates an old layout first, then sends the image. */
    method LoadBootloader(image: seq<Byte>, chunk: nat) returns (r: Result<Unit, Error>)
      requires chunk > 0
      modifies this
      ensures |image| <= BOOTLOADER_MAX_SIZE ==>
        Ran(old(mem), old(writesLeft), LoadWrites(old(mem), image, chunk), r.Ok?)
      ensures |image| > BOOTLOADER_MAX_SIZE ==>
        var ws := MigrateWrites(old(mem));
        r.Err? && Made(old(mem), old(writesLeft), ws, Min(old(writesLeft), |ws|))
      ensures r.Err? ==> r.error == IoError || r.error == ImageTooLarge
    {
      ghost var m, budget, ws := mem, writesLeft, MigrateWrites(mem);
      var signature := ReadEeprom(0, 4);
      assert ws[..0] == [];
      if signature == OLD_SIGNATURE {
        var pidvid := ReadEeprom(4, 4);
        var vidpid := [pidvid[2], pidvid[3], pidvid[0], pidvid[1]];
        var data := ReadEeprom(OLD_DATA_ADDR, DATA_LENGTH);
        var ok := Make(HEADER_ADDR, DATA_HEADER, m, budget, ws, 0);
        if ok {
          ok := Make(VID_PID_ADDR, vidpid, m, budget, ws, 1);
        }
        if ok {
          ok := Make(NEW_DATA_ADDR, data, m, budget, ws, 2);
        }
        if !ok {
          if |image| <= BOOTLOADER_MAX_SIZE {
            StoppedEarly(ws, ImageWrites(image, chunk, 0), budget);
          }
          return Err(IoError);
        }
      }
      if |image| > BOOTLOADER_MAX_SIZE {
        return Err(ImageTooLarge);
      }
      r := SendImage(image, chunk, m, budget);
    }

    /** The transfer loop of `load_bootloader`. */
    method SendImage(image: seq<Byte>, chunk: nat, ghost m: Memory, ghost budget: nat) returns (r: Result<Unit, Error>)
      requires chunk > 0 && |image| <= BOOTLOADER_MAX_SIZE
      requires Made(m, budget, MigrateWrites(m), |MigrateWrites(m)|)
      modifies this
      ensures Ran(m, budget, LoadWrites(m, image, chunk), r.Ok?)
      ensures r.Err? ==> r.error == IoError
    {
      ghost var ws := LoadWrites(m, image, chunk);
      ghost var k := |MigrateWrites(m)|;
      assert ws[..k] == MigrateWrites(m)[..k];
      assert ws[k..] == ImageWrites(image, chunk, 0);
      var sent := 0;
      while sent < |image|
        invariant sent <= |image| && k <= |ws|
        invariant Made(m, budget, ws, k)
        invariant ws[k..] == ImageWrites(image, chunk, sent)
        decreases |image| - sent
      {
        var end := ChunkEnd(image, chunk, sent);
        assert ws[k..][0] == Write(sent, image[sent..end]);
        assert ws[k + 1..] == ws[k..][1..];
        var ok := Make(sent, image[sent..end], m, budget, ws, k);
        if !ok {
          return Err(IoError);
        }
        sent, k := end, k + 1;
      }
      return Ok(Unit);
    }

    /** `--unload-bootloader`. */
    method UnloadBootloader() returns (r: Result<Unit, Error>)
      modifies this
      ensures !IsNew(old(mem)) ==> r == Err(NoBootloader) && mem == old(mem) && writesLeft == old(writesLeft)
      ensures IsNew(old(mem)) ==>
        Ran(old(mem), old(writesLeft), UnloadWrites(old(mem)), r.Ok?) && (r.Err? ==> r.error == IoError)
    {
      ghost var m, budget, ws := mem, writesLeft, UnloadWrites(mem);
      var signature := ReadEeprom(0, 4);
      if signature != NEW_SIGNATURE {
        return Err(NoBootloader);
      }
      var vidpid := ReadEeprom(VID_PID_ADDR, 4);
      var data := ReadEeprom(NEW_DATA_ADDR, DATA_LENGTH);
      var record := OLD_SIGNATURE;
      record := record + [vidpid[2]];
      record := record + [vidpid[3]];
      record := record + [vidpid[0]];
      record := record + [vidpid[1]];
      assert ws[..0] == [] && ws[0] == Write(0, record);
      UnloadIsTwoWrites(m);
      var first := WriteAndVerify(record);
      if first.Err? {
        return first;
      }
      var ok := Make(OLD_DATA_ADDR, data, m, budget, ws, 1);
      return if ok then Ok(Unit) else Err(IoError);
    }

    /** `--init-device`: the header with the old signature, then the serial. */
    method InitDevice(vid: Word, pid: Word, serial: seq<Byte>) returns (r: Result<Unit, Error>)
      modifies this
      ensures r == Err(BadSerial) <==> !SerialAccepted(serial)
      ensures r == Err(BadSerial) <==> |serial| == 0 || |serial| > 7
      ensures r == Err(BadSerial) ==> mem == old(mem) && writesLeft == old(writesLeft)
      ensures SerialAccepted(serial) ==>
        Ran(old(mem), old(writesLeft), InitWrites(vid, pid, serial), r.Ok?) && (r.Err? ==> r.error == IoError)
    {
      if |serial| == 0 || |serial| >= SERIAL_LENGTH - 1 {
        return Err(BadSerial);
      }
      ghost var m, budget, ws := mem, writesLeft, InitWrites(vid, pid, serial);
      InitIsTwoWrites(m, vid, pid, serial);
      var header := WriteAndVerify(InitValues(vid, pid));
      if header.Err? {
        return header;
      }
      assert mem[..4] == OLD_SIGNATURE;
      var addr := HdrAddress();
      var ok := Make(addr + SERIAL_OFFSET, serial + [0], m, budget, ws, 1);
      return if ok then Ok(Unit) else Err(IoError);
    }

    /** `--blank-eeprom`: page after page; a write that fails is not noticed. */
    method Blank()
      modifies this
      ensures mem == Blanked(old(mem), Min(old(writesLeft), EEPROM_SIZE / PAGE_SIZE))
    {
      ghost var m, budget := mem, writesLeft;
      var high := 0;
      ghost var done := 0;
      assert Blanked(m, 0) == m;
      while high < EEPROM_SIZE / 0x100
        invariant high <= EEPROM_SIZE / 0x100 && done == 4 * high
        invariant mem == Blanked(m, Min(budget, done)) && writesLeft == budget - Min(budget, done)
      {
        var j := 0;
        while j < 0x100
          invariant j <= 0x100 && j == (done - 4 * high) * PAGE_SIZE
          invariant mem == Blanked(m, Min(budget, done)) && writesLeft == budget - Min(budget, done)
        {
          if done < budget {
            BlankNext(m, done);
          }
          var _ := WriteEeprom(high * 0x100 + j, seq(PAGE_SIZE, _ => 0xFF));
          j := j + PAGE_SIZE;
          done := done + 1;
        }
        high := high + 1;
      }
    }
  }

  /** `m` with its first `pages` pages erased. */
  function Blanked(m: Memory, pages: nat): Memory
    requires pages * PAGE_SIZE <= EEPROM_SIZE
  {
    seq(pages * PAGE_SIZE, _ => 0xFF) + m[pages * PAGE_SIZE..]
  }

  lemma BlankNext(m: Memory, pages: nat)
    requires (pages + 1) * PAGE_SIZE <= EEPROM_SIZE
    ensures Put(Blanked(m, pages), Write(pages * PAGE_SIZE, seq(PAGE_SIZE, _ => 0xFF))) == Blanked(m, pages + 1)
  {}

  /** A link that holds long enough leaves no byte that is not erased. */
  lemma BlankReachesEverything(m: Memory)
    ensures forall i :: 0 <= i < EEPROM_SIZE ==> Blanked(m, EEPROM_SIZE / PAGE_SIZE)[i] == 0xFF
  {}

  lemma StoppedEarly(a: seq<Write>, b: seq<Write>, budget: nat)
    requires budget < |a|
    ensures (a + b)[..budget] == a[..budget]
  {}

  function InitWrites(vid: Word, pid: Word, serial: seq<Byte>): (ws: seq<Write>)
    requires SerialAccepted(serial)
    ensures AllFit(ws)
  {
    [Write(0, InitValues(vid, pid)), Write(OLD_DATA_ADDR + SERIAL_OFFSET, serial + [0])]
  }

  lemma InitIsTwoWrites(m: Memory, vid: Word, pid: Word, serial: seq<Byte>)
    requires SerialAccepted(serial)
    ensures var ws := InitWrites(vid, pid, serial);
            && PutAll(m, ws[..0]) == m
            && PutAll(m, ws[..1]) == Put(m, ws[0])
            && PutAll(m, ws) == Put(Put(m, ws[0]), ws[1])
  {
    var ws := InitWrites(vid, pid, serial);
    assert ws[..1][..0] == [] && ws[..1] == [ws[0]] && ws[..2] == ws;
  }

  /** An initialisation that stops between its two writes leaves the ids as given
      and an old layout. What was user data before still is if the layout was
      the old one; otherwise the bytes at the old place are taken for it. Running
      it again ends as if it had not stopped. */
  lemma InitStopped(m: Memory, vid: Word, pid: Word, serial: seq<Byte>)
    requires SerialAccepted(serial)
    ensures var ws := InitWrites(vid, pid, serial);
            var u := PutAll(m, ws[..1]);
            && IsOld(u)
            && WordOf(VidPid(u)[0], VidPid(u)[1]) == vid && WordOf(VidPid(u)[2], VidPid(u)[3]) == pid
            && UserData(u) == At(m, OLD_DATA_ADDR, DATA_LENGTH)
            && (!IsNew(m) ==> UserData(u) == UserData(m))
            && PutAll(u, ws) == PutAll(m, ws)
  {
    var ws := InitWrites(vid, pid, serial);
    var u := PutAll(m, ws[..1]);
    InitIsTwoWrites(m, vid, pid, serial);
    InitIsTwoWrites(u, vid, pid, serial);
    assert u[..4] == OLD_SIGNATURE;
    assert NEW_SIGNATURE[2] != OLD_SIGNATURE[2];
    assert At(u, 4, 4) == [pid % 0x100, pid / 0x100, vid % 0x100, vid / 0x100];
    assert At(u, OLD_DATA_ADDR, DATA_LENGTH) == At(m, OLD_DATA_ADDR, DATA_LENGTH);
    assert Put(u, ws[0]) == u;
  }

  /** After an initialisation the ids and the serial number are read back as
      given, whatever the memory held before. Serials of one to seven bytes are
      taken; the message for the others says eight are allowed. */
  lemma InitReadsBack(m: Memory, vid: Word, pid: Word, serial: seq<Byte>)
    requires SerialAccepted(serial)
    ensures var u := PutAll(m, InitWrites(vid, pid, serial));
            && IsOld(u)
            && u[..8] == [0x43, 0x59, 0x14, 0xB2, pid % 0x100, pid / 0x100, vid % 0x100, vid / 0x100]
            && Serial(u)[..|serial| + 1] == serial + [0]
            && WordOf(VidPid(u)[0], VidPid(u)[1]) == vid
            && WordOf(VidPid(u)[2], VidPid(u)[3]) == pid
  {
    var u := PutAll(m, InitWrites(vid, pid, serial));
    InitIsTwoWrites(m, vid, pid, serial);
    assert At(u, 0, 8) == InitValues(vid, pid);
    assert At(u, OLD_DATA_ADDR + SERIAL_OFFSET, |serial| + 1) == serial + [0];
    InitializedIsOld(u, vid, pid, serial);
  }

  lemma InitializedIsOld(u: Memory, vid: Word, pid: Word, serial: seq<Byte>)
    requires SerialAccepted(serial)
    requires At(u, 0, 8) == InitValues(vid, pid)
    requires At(u, OLD_DATA_ADDR + SERIAL_OFFSET, |serial| + 1) == serial + [0]
    ensures IsOld(u)
    ensures VidPid(u) == [vid % 0x100, vid / 0x100, pid % 0x100, pid / 0x100]
    ensures Serial(u)[..|serial| + 1] == serial + [0]
  {
    assert NEW_SIGNATURE[2] != OLD_SIGNATURE[2];
    assert u[..4] == At(u, 0, 8)[..4] == OLD_SIGNATURE;
    assert At(u, 4, 4) == At(u, 0, 8)[4..];
    assert Serial(u)[..|serial| + 1] == At(u, OLD_DATA_ADDR + SERIAL_OFFSET, |serial| + 1);
  }
}
