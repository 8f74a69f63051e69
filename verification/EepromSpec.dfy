/** The two EEPROM layouts of the B2xx and what the bootloader commands write,
    as values: a memory, and the list of writes each command makes. */
module EepromSpec {
  import opened Common

  type Word = x: int | 0 <= x < 0x1_0000

  const EEPROM_SIZE: nat := 0x8000

  const OLD_SIGNATURE: seq<Byte> := [0x43, 0x59, 0x14, 0xB2]
  const NEW_SIGNATURE: seq<Byte> := [0x43, 0x59, 0x1A, 0xB0]
  const DATA_HEADER: seq<Byte> := [0x00, 0xB2, 0x01, 0x00, 0x01, 0x00]

  // Addresses are the high byte shifted left joined with the offset, which is
  // below 0x100 at every call.
  const HEADER_ADDR: nat := 0x7F00
  const VID_PID_ADDR: nat := 0x7F06
  const NEW_DATA_ADDR: nat := 0x7F0A
  const OLD_DATA_ADDR: nat := 0x04DC
  const DATA_LENGTH: nat := 36
  const SERIAL_OFFSET: nat := 0x1B
  const SERIAL_LENGTH: nat := 9
  const BOOTLOADER_MAX_SIZE: nat := 32512

  type Memory = m: seq<Byte> | |m| == EEPROM_SIZE witness seq(EEPROM_SIZE, _ => 0)

  datatype Write = Write(addr: nat, data: seq<Byte>)

  predicate Fits(w: Write) {
    w.addr + |w.data| <= EEPROM_SIZE
  }

  function Put(m: Memory, w: Write): (r: Memory)
    requires Fits(w)
    ensures forall i :: 0 <= i < EEPROM_SIZE ==>
      r[i] == if w.addr <= i < w.addr + |w.data| then w.data[i - w.addr] else m[i]
  {
    m[..w.addr] + w.data + m[w.addr + |w.data|..]
  }

  predicate AllFit(ws: seq<Write>) {
    forall i :: 0 <= i < |ws| ==> Fits(ws[i])
  }

  /** The memory after a list of writes. */
  function PutAll(m: Memory, ws: seq<Write>): Memory
    requires AllFit(ws)
    decreases |ws|
  {
    if ws == [] then m else Put(PutAll(m, ws[..|ws| - 1]), ws[|ws| - 1])
  }

  // ------------------------------------------------------------------
  // The layouts
  // ------------------------------------------------------------------

  predicate IsOld(m: Memory) {
    m[..4] == OLD_SIGNATURE
  }

  predicate IsNew(m: Memory) {
    m[..4] == NEW_SIGNATURE
  }

  /** `get_eeprom_hdr_address`. */
  function DataAddr(m: Memory): nat {
    if IsNew(m) then NEW_DATA_ADDR else OLD_DATA_ADDR
  }

  function At(m: Memory, addr: nat, len: nat): seq<Byte>
    requires addr + len <= EEPROM_SIZE
  {
    m[addr..addr + len]
  }

  function UserData(m: Memory): seq<Byte> {
    At(m, DataAddr(m), DATA_LENGTH)
  }

  /** The serial number field. */
  function Serial(m: Memory): seq<Byte> {
    At(m, DataAddr(m) + SERIAL_OFFSET, SERIAL_LENGTH)
  }

  /** The two id words in the other order. */
  function SwapIds(ids: seq<Byte>): seq<Byte>
    requires |ids| == 4
  {
    [ids[2], ids[3], ids[0], ids[1]]
  }

  /** Vendor id and product id, as the layout in use stores them. */
  function VidPid(m: Memory): seq<Byte> {
    if IsNew(m) then At(m, VID_PID_ADDR, 4) else SwapIds(At(m, 4, 4))
  }

  // ------------------------------------------------------------------
  // The commands as lists of writes
  // ------------------------------------------------------------------

  function MigrateWrites(m: Memory): seq<Write> {
    if IsOld(m) then
      [ Write(HEADER_ADDR, DATA_HEADER),
        Write(VID_PID_ADDR, SwapIds(At(m, 4, 4))),
        Write(NEW_DATA_ADDR, At(m, OLD_DATA_ADDR, DATA_LENGTH)) ]
    else []
  }

  /** The image in transfers of `chunk` bytes, the last one possibly shorter. */
  function ImageWrites(image: seq<Byte>, chunk: nat, pos: nat): (ws: seq<Write>)
    requires chunk > 0 && pos <= |image| <= BOOTLOADER_MAX_SIZE
    ensures AllFit(ws)
    ensures ws == [] <==> pos == |image|
    decreases |image| - pos
  {
    if pos == |image| then []
    else
      var end := ChunkEnd(image, chunk, pos);
      [Write(pos, image[pos..end])] + ImageWrites(image, chunk, end)
  }

  /** An image the loader accepts and the device then boots from. */
  predicate Bootable(image: seq<Byte>) {
    4 <= |image| <= BOOTLOADER_MAX_SIZE && image[..4] == NEW_SIGNATURE
  }

  function LoadWrites(m: Memory, image: seq<Byte>, chunk: nat): (ws: seq<Write>)
    requires chunk > 0 && |image| <= BOOTLOADER_MAX_SIZE
    ensures AllFit(ws)
  {
    MigrateWrites(m) + ImageWrites(image, chunk, 0)
  }

  function UnloadWrites(m: Memory): (ws: seq<Write>)
    ensures AllFit(ws)
  {
    if IsNew(m) then
      [ Write(0, OLD_SIGNATURE + SwapIds(At(m, VID_PID_ADDR, 4))),
        Write(OLD_DATA_ADDR, At(m, NEW_DATA_ADDR, DATA_LENGTH)) ]
    else []
  }

  function Load(m: Memory, image: seq<Byte>, chunk: nat): Memory
    requires chunk > 0 && |image| <= BOOTLOADER_MAX_SIZE
  {
    PutAll(m, LoadWrites(m, image, chunk))
  }

  function Unload(m: Memory): Memory {
    PutAll(m, UnloadWrites(m))
  }

  // ------------------------------------------------------------------
  // What a load leaves behind, at every point
  // ------------------------------------------------------------------

  lemma {:induction false} PutAllAppend(m: Memory, a: seq<Write>, b: seq<Write>)
    requires AllFit(a) && AllFit(b)
    ensures AllFit(a + b) && PutAll(m, a + b) == PutAll(PutAll(m, a), b)
    decreases |b|
  {
    if b == [] {
      assert a + b == a;
    } else {
      PutAllAppend(m, a, b[..|b| - 1]);
      assert (a + b)[..|a + b| - 1] == a + b[..|b| - 1];
    }
  }

  /** `m` with the first `n` bytes those of the image. */
  function Overlay(m: Memory, image: seq<Byte>, n: nat): Memory
    requires n <= |image| <= BOOTLOADER_MAX_SIZE
  {
    image[..n] + m[n..]
  }

  function ChunkEnd(image: seq<Byte>, chunk: nat, pos: nat): nat {
    if pos + chunk < |image| then pos + chunk else |image|
  }

  lemma OverlayChunk(m: Memory, image: seq<Byte>, pos: nat, end: nat)
    requires pos <= end <= |image| <= BOOTLOADER_MAX_SIZE
    ensures Put(Overlay(m, image, pos), Write(pos, image[pos..end])) == Overlay(m, image, end)
  {}

  /** After some transfers the image is there up to a point, which is the start
      before the first, past the signature after it, and the end after the last. */
  lemma {:induction false} ImagePrefix(m: Memory, image: seq<Byte>, chunk: nat, pos: nat, k: nat) returns (n: nat)
    requires 4 <= chunk && pos <= |image| <= BOOTLOADER_MAX_SIZE
    requires k <= |ImageWrites(image, chunk, pos)|
    ensures pos <= n <= |image|
    ensures PutAll(Overlay(m, image, pos), ImageWrites(image, chunk, pos)[..k]) == Overlay(m, image, n)
    ensures k == 0 <==> n == pos
    ensures k > 0 ==> n == |image| || n >= pos + 4
    ensures k == |ImageWrites(image, chunk, pos)| ==> n == |image|
    decreases |image| - pos
  {
    var ws := ImageWrites(image, chunk, pos);
    if k == 0 {
      n := pos;
      assert ws[..0] == [];
    } else {
      var end := ChunkEnd(image, chunk, pos);
      var rest := ImageWrites(image, chunk, end);
      n := ImagePrefix(m, image, chunk, end, k - 1);
      OverlayChunk(m, image, pos, end);
      assert ws[..k] == [ws[0]] + rest[..k - 1];
      PutFirst(Overlay(m, image, pos), ws[0], rest[..k - 1]);
    }
  }

  lemma PutFirst(m: Memory, w: Write, ws: seq<Write>)
    requires Fits(w) && AllFit(ws)
    ensures AllFit([w] + ws) && PutAll(m, [w] + ws) == PutAll(Put(m, w), ws)
  {
    PutAllAppend(m, [w], ws);
    assert [w][..0] == [];
  }

  /** The memory with the migrated copy written. */
  function Migrated(m: Memory): Memory {
    PutAll(m, MigrateWrites(m))
  }

  lemma MigratedBytes(m: Memory)
    requires IsOld(m)
    ensures At(Migrated(m), VID_PID_ADDR, 4) == VidPid(m)
    ensures At(Migrated(m), NEW_DATA_ADDR, DATA_LENGTH) == UserData(m)
    ensures Migrated(m)[..HEADER_ADDR] == m[..HEADER_ADDR]
    ensures At(Migrated(m), HEADER_ADDR, 6) == DATA_HEADER
    ensures Migrated(m)[NEW_DATA_ADDR + DATA_LENGTH..] == m[NEW_DATA_ADDR + DATA_LENGTH..]
  {
    var ws := MigrateWrites(m);
    assert ws[..2][..1] == ws[..1] && ws[..1][..0] == [];
    assert ws[..3] == ws;
    var a := Put(m, ws[0]);
    var b := Put(a, ws[1]);
    var c := Put(b, ws[2]);
    assert PutAll(m, ws[..1]) == a;
    assert PutAll(m, ws[..2]) == b;
    assert Migrated(m) == c;
  }

  /** A finished load is the image over the migrated memory. */
  lemma LoadIsOverlay(m: Memory, image: seq<Byte>, chunk: nat)
    requires 4 <= chunk && |image| <= BOOTLOADER_MAX_SIZE
    ensures Load(m, image, chunk) == Overlay(Migrated(m), image, |image|)
  {
    var ws := ImageWrites(image, chunk, 0);
    PutAllAppend(m, MigrateWrites(m), ws);
    var n := ImagePrefix(Migrated(m), image, chunk, 0, |ws|);
    assert ws[..|ws|] == ws;
    assert Overlay(Migrated(m), image, 0) == Migrated(m);
  }

  /** Where a load from the old layout puts everything: the image at the front, at
      0x7F00 the header of the data page, the vendor id before the product id, and
      the data from 0x04DC; all other bytes stay. */
  lemma LoadBytes(m: Memory, image: seq<Byte>, chunk: nat)
    requires m[..4] == [0x43, 0x59, 0x14, 0xB2] && 4 <= chunk && |image| <= 0x7F00
    ensures var u := Load(m, image, chunk);
            && u[..|image|] == image && u[|image|..0x7F00] == m[|image|..0x7F00]
            && u[0x7F00..0x7F0A] == [0x00, 0xB2, 0x01, 0x00, 0x01, 0x00, m[6], m[7], m[4], m[5]]
            && u[0x7F0A..0x7F2E] == m[0x04DC..0x0500] && u[0x7F2E..] == m[0x7F2E..]
  {
    var u, v := Load(m, image, chunk), Migrated(m);
    MigratedBytes(m);
    LoadIsOverlay(m, image, chunk);
    assert NEW_SIGNATURE[2] != OLD_SIGNATURE[2];
    assert u[|image|..] == v[|image|..];
    PastPrefix(u, v, |image|, HEADER_ADDR, HEADER_ADDR + 10);
    PastPrefix(u, v, |image|, NEW_DATA_ADDR, NEW_DATA_ADDR + DATA_LENGTH);
    PastPrefix(u, v, |image|, NEW_DATA_ADDR + DATA_LENGTH, EEPROM_SIZE);
    PastPrefix(u, v, |image|, |image|, HEADER_ADDR);
    assert v[|image|..HEADER_ADDR] == v[..HEADER_ADDR][|image|..];
    assert v[HEADER_ADDR..HEADER_ADDR + 10] == At(v, HEADER_ADDR, 6) + At(v, VID_PID_ADDR, 4);
  }

  /** Memories that agree from some place on agree on every range past it. */
  lemma PastPrefix(u: Memory, v: Memory, n: nat, low: nat, high: nat)
    requires n <= low <= high <= EEPROM_SIZE && u[n..] == v[n..]
    ensures u[low..high] == v[low..high]
  {
    forall k | low <= k < high ensures u[k] == v[k] { assert u[n..][k - n] == v[n..][k - n]; }
  }

  /** The memory after the first `k` writes of a load. */
  function LoadStopped(m: Memory, image: seq<Byte>, chunk: nat, k: nat): Memory
    requires chunk > 0 && |image| <= BOOTLOADER_MAX_SIZE
    requires k <= |LoadWrites(m, image, chunk)|
  {
    PutAll(m, LoadWrites(m, image, chunk)[..k])
  }

  /** A load that is cut short has either not begun on the image, so that all
      below the data page is as it was, or has written past the signature with
      the migration complete. */
  lemma LoadStoppedShape(m: Memory, image: seq<Byte>, chunk: nat, k: nat) returns (n: nat)
    requires 4 <= chunk && Bootable(image) && k <= |LoadWrites(m, image, chunk)|
    ensures n <= |image|
    ensures k <= |MigrateWrites(m)| <==> n == 0
    ensures n == 0 ==> LoadStopped(m, image, chunk, k) == PutAll(m, MigrateWrites(m)[..k])
    ensures n > 0 ==> n >= 4 && LoadStopped(m, image, chunk, k) == Overlay(Migrated(m), image, n)
  {
    var a, b := MigrateWrites(m), ImageWrites(image, chunk, 0);
    if k <= |a| {
      n := 0;
      assert (a + b)[..k] == a[..k];
    } else {
      n := ImagePrefix(Migrated(m), image, chunk, 0, k - |a|);
      assert (a + b)[..k] == a + b[..k - |a|];
      PutAllAppend(m, a, b[..k - |a|]);
      assert Overlay(Migrated(m), image, 0) == Migrated(m);
    }
  }

  /** The migration touches nothing but the page it writes. */
  lemma MigrateStopped(m: Memory, k: nat)
    requires k <= |MigrateWrites(m)|
    ensures PutAll(m, MigrateWrites(m)[..k])[..HEADER_ADDR] == m[..HEADER_ADDR]
    ensures PutAll(m, MigrateWrites(m)[..k])[NEW_DATA_ADDR + DATA_LENGTH..] == m[NEW_DATA_ADDR + DATA_LENGTH..]
  {
    var ws := MigrateWrites(m);
    if k > 0 {
      MigrateStopped(m, k - 1);
      assert ws[..k][..k - 1] == ws[..k - 1];
      var u := PutAll(m, ws[..k - 1]);
      assert PutAll(m, ws[..k]) == Put(u, ws[k - 1]);
      assert Put(u, ws[k - 1])[..HEADER_ADDR] == u[..HEADER_ADDR];
    }
  }

  lemma PrefixAgrees(m: Memory, u: Memory, n: nat, addr: nat, len: nat)
    requires addr + len <= n <= EEPROM_SIZE && u[..n] == m[..n]
    ensures At(u, addr, len) == At(m, addr, len)
  {
    assert At(u, addr, len) == u[..n][addr..addr + len];
    assert At(m, addr, len) == m[..n][addr..addr + len];
  }

  lemma OverlayFacts(m: Memory, image: seq<Byte>, n: nat)
    requires Bootable(image) && 4 <= n <= |image|
    ensures IsNew(Overlay(m, image, n)) && !IsOld(Overlay(m, image, n))
    ensures Overlay(m, image, n)[HEADER_ADDR..] == m[HEADER_ADDR..]
  {
    assert Overlay(m, image, n)[..4] == image[..4];
    assert NEW_SIGNATURE[2] != OLD_SIGNATURE[2];
  }

  lemma PageAgrees(m: Memory, u: Memory, addr: nat, len: nat)
    requires HEADER_ADDR <= addr && addr + len <= EEPROM_SIZE
    requires u[HEADER_ADDR..] == m[HEADER_ADDR..]
    ensures At(u, addr, len) == At(m, addr, len)
  {
    forall i | addr <= i < addr + len ensures u[i] == m[i] {
      assert u[i] == u[HEADER_ADDR..][i - HEADER_ADDR];
      assert m[i] == m[HEADER_ADDR..][i - HEADER_ADDR];
    }
  }

  /** Stopped after any number of writes, a load leaves the user data and the ids
      where the layout then in use says they are. */
  lemma LoadIsCrashSafe(m: Memory, image: seq<Byte>, chunk: nat, k: nat)
    requires 4 <= chunk && Bootable(image) && k <= |LoadWrites(m, image, chunk)|
    requires IsOld(m) || IsNew(m)
    ensures var u := LoadStopped(m, image, chunk, k);
            && (IsOld(u) || IsNew(u))
            && UserData(u) == UserData(m) && VidPid(u) == VidPid(m) && Serial(u) == Serial(m)
  {
    var u := LoadStopped(m, image, chunk, k);
    var n := LoadStoppedShape(m, image, chunk, k);
    SerialInData(m);
    SerialInData(u);
    if n == 0 {
      MigrateStopped(m, k);
      SameBelowPage(m, u);
    } else {
      OverlayFacts(Migrated(m), image, n);
      PageAgrees(Migrated(m), u, VID_PID_ADDR, 4);
      PageAgrees(Migrated(m), u, NEW_DATA_ADDR, DATA_LENGTH);
      if IsOld(m) { MigratedBytes(m); }
    }
  }

  /** For every memory: a load keeps the data, from its first write on, exactly
      when it finds one of the layouts, or the same bytes at both places. With
      neither signature the data is read at the old place but not migrated. */
  lemma LoadKeepsDataIff(m: Memory, image: seq<Byte>, chunk: nat, k: nat)
    requires 4 <= chunk && Bootable(image) && k <= |LoadWrites(m, image, chunk)|
    ensures UserData(LoadStopped(m, image, chunk, k)) == UserData(m) <==>
      || k == 0 || IsOld(m) || IsNew(m)
      || At(m, OLD_DATA_ADDR, DATA_LENGTH) == At(m, NEW_DATA_ADDR, DATA_LENGTH)
  {
    if IsOld(m) || IsNew(m) {
      LoadIsCrashSafe(m, image, chunk, k);
    } else {
      var n := LoadStoppedShape(m, image, chunk, k);
      if n == 0 {
        assert LoadWrites(m, image, chunk)[..0] == [];
      } else {
        OverlayFacts(m, image, n);
        PageAgrees(m, LoadStopped(m, image, chunk, k), NEW_DATA_ADDR, DATA_LENGTH);
      }
    }
  }

  /** What `--uninit-device` leaves: eight bytes of 0xFF at the front. */
  function Uninitialized(m: Memory): Memory {
    Put(m, Write(0, seq(8, _ => 0xFF)))
  }

  /** So uninitializing a device with the old layout keeps its data readable, and
      loading a bootloader after that loses it unless the last page held it too. */
  lemma LoadAfterUninit(m: Memory, image: seq<Byte>, chunk: nat)
    requires IsOld(m) && 4 <= chunk && Bootable(image)
    ensures var u := Uninitialized(m);
            && u[..8] == [0xFF, 0xFF, 0xFF, 0xFF, 0xFF, 0xFF, 0xFF, 0xFF] && u[8..] == m[8..]
            && !IsOld(u) && !IsNew(u) && UserData(u) == UserData(m)
            && (UserData(Load(u, image, chunk)) == UserData(m) <==>
                  UserData(m) == At(m, NEW_DATA_ADDR, DATA_LENGTH))
  {
    var u := Uninitialized(m);
    assert u[0] == 0xFF && OLD_SIGNATURE[0] != 0xFF && NEW_SIGNATURE[0] != 0xFF;
    assert u[..4][0] == 0xFF;
    assert NEW_SIGNATURE[2] != OLD_SIGNATURE[2];
    assert At(u, OLD_DATA_ADDR, DATA_LENGTH) == At(m, OLD_DATA_ADDR, DATA_LENGTH);
    assert At(u, NEW_DATA_ADDR, DATA_LENGTH) == At(m, NEW_DATA_ADDR, DATA_LENGTH);
    var ls := LoadWrites(u, image, chunk);
    assert ls[..|ls|] == ls && ls != [];
    LoadKeepsDataIff(u, image, chunk, |ls|);
  }

  lemma SameBelowPage(m: Memory, u: Memory)
    requires u[..HEADER_ADDR] == m[..HEADER_ADDR]
    requires IsNew(m) ==> u == m
    ensures IsOld(u) == IsOld(m) && IsNew(u) == IsNew(m)
    ensures UserData(u) == UserData(m) && VidPid(u) == VidPid(m)
  {
    PrefixAgrees(m, u, HEADER_ADDR, 0, 4);
    PrefixAgrees(m, u, HEADER_ADDR, 4, 4);
    PrefixAgrees(m, u, HEADER_ADDR, OLD_DATA_ADDR, DATA_LENGTH);
    assert At(u, 0, 4) == u[..4] && At(m, 0, 4) == m[..4];
  }

  lemma SerialInData(m: Memory)
    ensures Serial(m) == UserData(m)[SERIAL_OFFSET..]
  {}

  /** Running a load again after it was cut short anywhere ends as if it had not been. */
  lemma LoadIsRetryable(m: Memory, image: seq<Byte>, chunk: nat, k: nat)
    requires 4 <= chunk && Bootable(image) && k <= |LoadWrites(m, image, chunk)|
    ensures Load(LoadStopped(m, image, chunk, k), image, chunk) == Load(m, image, chunk)
  {
    var u := LoadStopped(m, image, chunk, k);
    var n := LoadStoppedShape(m, image, chunk, k);
    LoadIsOverlay(m, image, chunk);
    LoadIsOverlay(u, image, chunk);
    if n == 0 {
      MigrateStopped(m, k);
      if IsOld(m) {
        SameBelowPage(m, u);
        MigratedBytes(m);
        MigratedBytes(u);
        assert Migrated(u) == Migrated(m) by { SameByParts(Migrated(m), Migrated(u)); }
      }
    } else {
      OverlayFacts(Migrated(m), image, n);
    }
  }

  lemma SameByParts(a: Memory, b: Memory)
    requires a[..HEADER_ADDR] == b[..HEADER_ADDR]
    requires At(a, HEADER_ADDR, 6) == At(b, HEADER_ADDR, 6)
    requires At(a, VID_PID_ADDR, 4) == At(b, VID_PID_ADDR, 4)
    requires At(a, NEW_DATA_ADDR, DATA_LENGTH) == At(b, NEW_DATA_ADDR, DATA_LENGTH)
    requires a[NEW_DATA_ADDR + DATA_LENGTH..] == b[NEW_DATA_ADDR + DATA_LENGTH..]
    ensures a == b
  {
    var e := NEW_DATA_ADDR + DATA_LENGTH;
    assert a == a[..HEADER_ADDR] + At(a, HEADER_ADDR, 6) + At(a, VID_PID_ADDR, 4)
                + At(a, NEW_DATA_ADDR, DATA_LENGTH) + a[e..];
    assert b == b[..HEADER_ADDR] + At(b, HEADER_ADDR, 6) + At(b, VID_PID_ADDR, 4)
                + At(b, NEW_DATA_ADDR, DATA_LENGTH) + b[e..];
  }

  // ------------------------------------------------------------------
  // Unload, and the round trip
  // ------------------------------------------------------------------

  lemma UnloadIsTwoWrites(m: Memory)
    requires IsNew(m)
    ensures UnloadWrites(m)[..1] == [UnloadWrites(m)[0]]
    ensures PutAll(m, UnloadWrites(m)[..1]) == HalfUnloaded(m)
    ensures Unload(m) == Put(HalfUnloaded(m), UnloadWrites(m)[1])
  {
    var ws := UnloadWrites(m);
    assert ws[..1][..0] == [] && ws[..2] == ws;
  }

  /** The memory when an unload stops after its first write. */
  function HalfUnloaded(m: Memory): Memory
    requires IsNew(m)
  {
    Put(m, UnloadWrites(m)[0])
  }

  lemma HalfUnloadedBytes(m: Memory)
    requires IsNew(m)
    ensures HalfUnloaded(m)[..8] == OLD_SIGNATURE + SwapIds(VidPid(m))
    ensures HalfUnloaded(m)[8..] == m[8..]
    ensures IsOld(HalfUnloaded(m)) && !IsNew(HalfUnloaded(m))
  {
    var u := HalfUnloaded(m);
    assert u[..8] == OLD_SIGNATURE + SwapIds(VidPid(m));
    assert u[..4] == u[..8][..4];
    assert NEW_SIGNATURE[2] != OLD_SIGNATURE[2];
  }

  lemma UnloadBytes(m: Memory)
    requires IsNew(m)
    ensures Unload(m)[..8] == OLD_SIGNATURE + SwapIds(VidPid(m))
    ensures At(Unload(m), OLD_DATA_ADDR, DATA_LENGTH) == UserData(m)
    ensures Unload(m)[8..OLD_DATA_ADDR] == m[8..OLD_DATA_ADDR]
    ensures Unload(m)[OLD_DATA_ADDR + DATA_LENGTH..] == m[OLD_DATA_ADDR + DATA_LENGTH..]
  {
    var h := HalfUnloaded(m);
    UnloadIsTwoWrites(m);
    HalfUnloadedBytes(m);
    PutParts(h, OLD_DATA_ADDR, UserData(m));
    assert h[8..OLD_DATA_ADDR] == h[8..][..OLD_DATA_ADDR - 8];
    assert h[OLD_DATA_ADDR + DATA_LENGTH..] == h[8..][OLD_DATA_ADDR + DATA_LENGTH - 8..];
  }

  /** Where an unload puts everything: the old signature and the ids, product before
      vendor, at the front, and the data from the last page at 0x04DC. */
  lemma UnloadLays(m: Memory)
    requires m[..4] == [0x43, 0x59, 0x1A, 0xB0]
    ensures var u := Unload(m);
            && u[..8] == [0x43, 0x59, 0x14, 0xB2, m[0x7F08], m[0x7F09], m[0x7F06], m[0x7F07]]
            && u[8..0x04DC] == m[8..0x04DC] && u[0x04DC..0x0500] == m[0x7F0A..0x7F2E] && u[0x0500..] == m[0x0500..]
  {
    UnloadBytes(m);
  }

  /** A write past the header changes its range and nothing else. */
  lemma PutParts(m: Memory, addr: nat, data: seq<Byte>)
    requires 8 <= addr && addr + |data| <= EEPROM_SIZE
    ensures var u := Put(m, Write(addr, data));
            && u[..8] == m[..8] && u[8..addr] == m[8..addr]
            && At(u, addr, |data|) == data && u[addr + |data|..] == m[addr + |data|..]
  {}

  /** Unloading keeps what the readers of either layout find. */
  lemma UnloadKeepsData(m: Memory)
    requires IsNew(m)
    ensures IsOld(Unload(m)) && !IsNew(Unload(m))
    ensures UserData(Unload(m)) == UserData(m) && VidPid(Unload(m)) == VidPid(m)
    ensures Serial(Unload(m)) == Serial(m)
  {
    var u := Unload(m);
    UnloadBytes(m);
    assert u[..4] == u[..8][..4] && At(u, 4, 4) == u[..8][4..];
    assert NEW_SIGNATURE[2] != OLD_SIGNATURE[2];
    SerialInData(m);
    SerialInData(u);
  }

  /** Loading and then unloading the bootloader restores the header and the user
      data of a device with the old layout, and the serial number is found with
      the same bytes before, between and after. */
  lemma RoundTrip(m: Memory, image: seq<Byte>, chunk: nat)
    requires 4 <= chunk && Bootable(image) && IsOld(m)
    ensures var u := Load(m, image, chunk);
            var v := Unload(u);
            && IsNew(u) && IsOld(v)
            && v[..8] == m[..8]
            && At(v, OLD_DATA_ADDR, DATA_LENGTH) == At(m, OLD_DATA_ADDR, DATA_LENGTH)
            && Serial(u) == Serial(m) && Serial(v) == Serial(m)
  {
    var ws := LoadWrites(m, image, chunk);
    assert ws[..|ws|] == ws;
    var u := Load(m, image, chunk);
    LoadIsCrashSafe(m, image, chunk, |ws|);
    LoadIsOverlay(m, image, chunk);
    OverlayFacts(Migrated(m), image, |image|);
    UnloadBytes(u);
    UnloadKeepsData(u);
    assert m[..8] == m[..4] + At(m, 4, 4);
    assert NEW_SIGNATURE[2] != OLD_SIGNATURE[2];
  }

  /** The round trip restores the header only of devices with the old layout:
      any other signature is not migrated and comes back as the old one. */
  lemma RoundTripRestoresIff(m: Memory, image: seq<Byte>, chunk: nat)
    requires 4 <= chunk && Bootable(image)
    ensures Unload(Load(m, image, chunk))[..8] == m[..8] <==> IsOld(m)
  {
    if IsOld(m) {
      RoundTrip(m, image, chunk);
    } else {
      LoadIsOverlay(m, image, chunk);
      OverlayFacts(m, image, |image|);
      var v := Unload(Load(m, image, chunk));
      UnloadBytes(Load(m, image, chunk));
      assert v[..4] == v[..8][..4] && m[..4] == m[..8][..4];
    }
  }

  /** Loading again, the same image or another, keeps the migrated data. */
  lemma ReloadKeepsData(m: Memory, image: seq<Byte>, chunk: nat, image2: seq<Byte>, chunk2: nat)
    requires 4 <= chunk && Bootable(image) && IsOld(m)
    requires 4 <= chunk2 && Bootable(image2)
    ensures var u := Load(Load(m, image, chunk), image2, chunk2);
            && UserData(u) == UserData(m) && VidPid(u) == VidPid(m) && Serial(u) == Serial(m)
            && u[HEADER_ADDR..] == Load(m, image, chunk)[HEADER_ADDR..]
  {
    var u := Load(m, image, chunk);
    var ws, ws2 := LoadWrites(m, image, chunk), LoadWrites(u, image2, chunk2);
    assert ws[..|ws|] == ws && ws2[..|ws2|] == ws2;
    LoadIsCrashSafe(m, image, chunk, |ws|);
    LoadIsOverlay(m, image, chunk);
    OverlayFacts(Migrated(m), image, |image|);
    LoadIsCrashSafe(u, image2, chunk2, |ws2|);
    LoadIsOverlay(u, image2, chunk2);
    OverlayFacts(u, image2, |image2|);
  }

  /** An unload is not safe to interrupt: after its first write the old signature
      sends readers to bytes that still belong to the bootloader, so the user
      data is found only if those bytes happen to be the same; running it again
      does nothing, and loading again overwrites the only copy that was left. */
  lemma UnloadCrashSafeIff(m: Memory, image: seq<Byte>, chunk: nat)
    requires IsNew(m) && 4 <= chunk && Bootable(image)
    ensures var u := HalfUnloaded(m);
            && u == PutAll(m, UnloadWrites(m)[..1])
            && (UserData(u) == UserData(m) <==> At(m, OLD_DATA_ADDR, DATA_LENGTH) == UserData(m))
            && Unload(u) == u
            && UserData(Load(u, image, chunk)) == At(m, OLD_DATA_ADDR, DATA_LENGTH)
  {
    var u := HalfUnloaded(m);
    UnloadIsTwoWrites(m);
    HalfUnloadedBytes(m);
    assert At(u, OLD_DATA_ADDR, DATA_LENGTH) == At(m, OLD_DATA_ADDR, DATA_LENGTH);
    var ls := LoadWrites(u, image, chunk);
    assert ls[..|ls|] == ls;
    LoadIsCrashSafe(u, image, chunk, |ls|);
  }

  /** The old place of the data after a load: the image as far as it reaches. */
  lemma OldPlaceAfterLoad(m: Memory, image: seq<Byte>, chunk: nat, k: nat)
    requires IsOld(m) && 4 <= chunk && Bootable(image) && k < DATA_LENGTH
    ensures At(Load(m, image, chunk), OLD_DATA_ADDR, DATA_LENGTH)[k]
            == if OLD_DATA_ADDR + k < |image| then image[OLD_DATA_ADDR + k] else UserData(m)[k]
  {
    LoadIsOverlay(m, image, chunk);
    MigratedBytes(m);
    assert NEW_SIGNATURE[2] != OLD_SIGNATURE[2];
    assert Migrated(m)[..HEADER_ADDR][OLD_DATA_ADDR + k] == m[..HEADER_ADDR][OLD_DATA_ADDR + k];
  }

  lemma LoadFromOld(m: Memory, image: seq<Byte>, chunk: nat)
    requires IsOld(m) && 4 <= chunk && Bootable(image)
    ensures IsNew(Load(m, image, chunk)) && UserData(Load(m, image, chunk)) == UserData(m)
  {
    var ls := LoadWrites(m, image, chunk);
    assert ls[..|ls|] == ls;
    LoadIsCrashSafe(m, image, chunk, |ls|);
    LoadIsOverlay(m, image, chunk);
    OverlayFacts(Migrated(m), image, |image|);
  }

  /** For a device that was loaded: an unload that stops after its first write
      keeps the data readable exactly when the image, where it reaches over the
      old place of the data, happens to hold the same bytes. So an image that
      ends before that place is safe and any other hardly ever is. */
  lemma UnloadAfterLoadSafeIff(m: Memory, image: seq<Byte>, chunk: nat)
    requires IsOld(m) && 4 <= chunk && Bootable(image)
    ensures var u := Load(m, image, chunk);
            && IsNew(u) && UserData(u) == UserData(m)
            && (UserData(HalfUnloaded(u)) == UserData(m) <==>
                  forall k :: 0 <= k < DATA_LENGTH && OLD_DATA_ADDR + k < |image| ==>
                    image[OLD_DATA_ADDR + k] == UserData(m)[k])
  {
    var u := Load(m, image, chunk);
    LoadFromOld(m, image, chunk);
    UnloadCrashSafeIff(u, image, chunk);
    var data, found := UserData(m), At(u, OLD_DATA_ADDR, DATA_LENGTH);
    forall k | 0 <= k < DATA_LENGTH
      ensures found[k] == if OLD_DATA_ADDR + k < |image| then image[OLD_DATA_ADDR + k] else data[k]
    {
      OldPlaceAfterLoad(m, image, chunk, k);
    }
  }

  /** A bootloader of 2000 bytes, none of them null after its signature, over
      data that is all nulls: the data is lost. */
  lemma UnloadLosesDataExample(m: Memory, image: seq<Byte>, chunk: nat)
    requires m == OLD_SIGNATURE + seq(EEPROM_SIZE - 4, _ => 0)
    requires image == NEW_SIGNATURE + seq(1996, _ => 1) && 4 <= chunk
    ensures IsOld(m) && Bootable(image) && IsNew(Load(m, image, chunk))
    ensures UserData(HalfUnloaded(Load(m, image, chunk))) != UserData(m)
  {
    assert m[..4] == OLD_SIGNATURE && image[..4] == NEW_SIGNATURE;
    assert NEW_SIGNATURE[2] != OLD_SIGNATURE[2];
    UnloadAfterLoadSafeIff(m, image, chunk);
    assert image[OLD_DATA_ADDR] == 1 && UserData(m)[0] == 0;
    assert OLD_DATA_ADDR + 0 < |image| && image[OLD_DATA_ADDR + 0] != UserData(m)[0];
  }
}
