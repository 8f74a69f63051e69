/** Burning padded images to a card and reading them back. */
module CardBurner {
  import opened Common

  const SECTOR_SIZE: nat := 512
  const MAX_FILE_SIZE: nat := 0x10_0000
  const FPGA_OFFSET: nat := 0
  const FIRMWARE_OFFSET: nat := 0x10_0000

  datatype Error = FileTooLarge | CommandFailed

  datatype Verdict = Passed | Failed

  /** `int_ceil_div`; the sizes are far below what a float holds exactly. */
  function IntCeilDiv(num: nat, den: nat): nat
    requires den > 0
  {
    (num + den - 1) / den
  }

  /** The image with zeros up to a whole number of sectors. */
  function Padded(image: seq<Byte>): seq<Byte> {
    var count := IntCeilDiv(|image|, SECTOR_SIZE);
    PaddingFits(|image|);
    image + seq(SECTOR_SIZE * count - |image|, _ => 0)
  }

  /** The least whole number of sectors that holds the image. */
  lemma PaddingFits(size: nat)
    ensures var count := IntCeilDiv(size, SECTOR_SIZE);
            && size <= SECTOR_SIZE * count < size + SECTOR_SIZE
            && (size <= MAX_FILE_SIZE ==> SECTOR_SIZE * count <= MAX_FILE_SIZE)
  {}

  /** `card` with `data` written at `pos`, as far as it reaches. */
  function Written(card: seq<Byte>, pos: nat, data: seq<Byte>): (r: seq<Byte>)
    ensures |r| == |card|
    ensures forall i :: 0 <= i < |card| ==>
      r[i] == if pos <= i < pos + |data| then data[i - pos] else card[i]
  {
    seq(|card|, i requires 0 <= i < |card| => if pos <= i < pos + |data| then data[i - pos] else card[i])
  }

  /** What verification compares: the first bytes of the sectors read back. */
  predicate Holds(card: seq<Byte>, image: seq<Byte>, offset: nat) {
    offset + |image| <= |card| && card[offset..offset + |image|] == image
  }

  /** `dd` from a file to the card: stops with an error at the end of the card. */
  method CopyToCard(card: array<Byte>, data: seq<Byte>, seek: nat) returns (ok: bool)
    modifies card
    ensures card[..] == Written(old(card[..]), seek * SECTOR_SIZE, data)
    ensures ok <==> seek * SECTOR_SIZE + |data| <= card.Length
  {
    var pos := seek * SECTOR_SIZE;
    var i := 0;
    while i < |data| && pos + i < card.Length
      invariant i <= |data|
      invariant i > 0 ==> pos + i <= card.Length
      invariant forall k :: 0 <= k < card.Length ==>
        card[k] == if pos <= k < pos + i then data[k - pos] else old(card[..])[k]
    {
      card[pos + i] := data[i];
      i := i + 1;
    }
    ok := pos + |data| <= card.Length;
  }

  /** `write_image`. */
  method WriteImage(card: array<Byte>, image: seq<Byte>, offset: nat) returns (r: Result<Unit, Error>)
    requires offset % SECTOR_SIZE == 0
    modifies card
    ensures card[..] == Written(old(card[..]), offset, Padded(image))
    ensures forall i :: 0 <= i < card.Length ==>
      card[i] == if offset <= i < offset + |image| then image[i - offset]
                 else if offset + |image| <= i < offset + (|image| + 511) / 512 * 512 then 0
                 else old(card[i])
    ensures r.Ok? <==> offset + |Padded(image)| <= card.Length
    ensures r.Err? ==> r.error == CommandFailed
  {
    var count := IntCeilDiv(|image|, SECTOR_SIZE);
    PaddingFits(|image|);
    var padding := seq(SECTOR_SIZE * count - |image|, _ => 0);
    var ok := CopyToCard(card, image + padding, offset / SECTOR_SIZE);
    return if ok then Ok(Unit) else Err(CommandFailed);
  }

  /** `verify_image`: reads the sectors back and compares as many bytes as the
      image has. A card that ends early gives fewer. */
  method VerifyImage(card: array<Byte>, image: seq<Byte>, offset: nat) returns (v: Verdict)
    requires offset % SECTOR_SIZE == 0 && offset <= card.Length
    ensures v == Passed <==> Holds(card[..], image, offset)
  {
    var count := IntCeilDiv(|image|, SECTOR_SIZE);
    PaddingFits(|image|);
    var end := if offset + SECTOR_SIZE * count <= card.Length then offset + SECTOR_SIZE * count else card.Length;
    var back := card[offset..end];
    var data := if |image| <= |back| then back[..|image|] else back;
    assert |image| <= |back| ==> data == card[..][offset..offset + |image|];
    v := if image != data then Failed else Passed;
  }

  /** `write_and_verify`. */
  method WriteAndVerify(card: array<Byte>, image: seq<Byte>, offset: nat) returns (r: Result<Verdict, Error>)
    requires offset % SECTOR_SIZE == 0
    modifies card
    ensures |image| > 0x10_0000 ==> r == Err(FileTooLarge) && card[..] == old(card[..])
    ensures |image| <= 0x10_0000 ==>
      && card[..] == Written(old(card[..]), offset, Padded(image))
      && r == if offset + |Padded(image)| <= card.Length then Ok(Passed) else Err(CommandFailed)
  {
    if |image| > MAX_FILE_SIZE {
      return Err(FileTooLarge);
    }
    var w := WriteImage(card, image, offset);
    if w.Err? {
      return Err(w.error);
    }
    WrittenHolds(old(card[..]), image, offset);
    var v := VerifyImage(card, image, offset);
    return Ok(v);
  }

  lemma WrittenHolds(card: seq<Byte>, image: seq<Byte>, offset: nat)
    requires offset + |Padded(image)| <= |card|
    ensures Holds(Written(card, offset, Padded(image)), image, offset)
  {
    PaddingFits(|image|);
  }

  /** What goes wrong with one image, if anything. */
  function Trouble(image: Option<seq<Byte>>, offset: nat, size: nat): (e: Option<Error>)
    ensures e == Some(FileTooLarge) <==> image.Some? && |image.value| > 0x10_0000
    ensures e == Some(CommandFailed) <==>
              image.Some? && |image.value| <= 0x10_0000 && offset + (|image.value| + 511) / 512 * 512 > size
    ensures e == None || e == Some(FileTooLarge) || e == Some(CommandFailed)
  {
    if image.None? then None
    else if |image.value| > MAX_FILE_SIZE then Some(FileTooLarge)
    else if offset + |Padded(image.value)| > size then Some(CommandFailed)
    else None
  }

  /** `burn_sd_card`: the firmware, then the FPGA image, each if given. The first
      that goes wrong ends it. */
  method BurnSdCard(card: array<Byte>, fw: Option<seq<Byte>>, fpga: Option<seq<Byte>>)
    returns (r: Result<seq<Verdict>, Error>)
    modifies card
    ensures
      var first := Trouble(fw, FIRMWARE_OFFSET, card.Length);
      var second := Trouble(fpga, FPGA_OFFSET, card.Length);
      if first.Some? then r == Err(first.value) && card[..] == Burned(old(card[..]), fw, None)
      else
        && card[..] == Burned(old(card[..]), fw, fpga)
        && if second.Some? then r == Err(second.value)
           else
             && r.Ok? && (forall v :: v in r.value ==> v == Passed)
             && |r.value| == (if fw.Some? then 1 else 0) + (if fpga.Some? then 1 else 0)
  {
    var verdicts: seq<Verdict> := [];
    if fw.Some? {
      var v := WriteAndVerify(card, fw.value, FIRMWARE_OFFSET);
      if v.Err? {
        return Err(v.error);
      }
      verdicts := verdicts + [v.value];
    }
    if fpga.Some? {
      var v := WriteAndVerify(card, fpga.value, FPGA_OFFSET);
      if v.Err? {
        return Err(v.error);
      }
      verdicts := verdicts + [v.value];
    }
    return Ok(verdicts);
  }

  /** One image written to its slot; one that is too large is not. */
  function InSlot(card: seq<Byte>, image: Option<seq<Byte>>, offset: nat): seq<Byte> {
    if image.Some? && |image.value| <= MAX_FILE_SIZE then Written(card, offset, Padded(image.value)) else card
  }

  function Burned(card: seq<Byte>, fw: Option<seq<Byte>>, fpga: Option<seq<Byte>>): seq<Byte> {
    InSlot(InSlot(card, fw, FIRMWARE_OFFSET), fpga, FPGA_OFFSET)
  }

  /** After both images are burned both are there: the second write, though padded,
      stays in its slot, and nothing outside the two padded images changed. */
  lemma BothImagesIntact(card: seq<Byte>, fw: seq<Byte>, fpga: seq<Byte>)
    requires Trouble(Some(fw), FIRMWARE_OFFSET, |card|).None? && Trouble(Some(fpga), FPGA_OFFSET, |card|).None?
    ensures var c := Burned(card, Some(fw), Some(fpga));
            && Holds(c, fw, FIRMWARE_OFFSET) && Holds(c, fpga, FPGA_OFFSET)
            && |Padded(fw)| % SECTOR_SIZE == 0 && |Padded(fpga)| % SECTOR_SIZE == 0
            && FPGA_OFFSET + |Padded(fpga)| <= FIRMWARE_OFFSET
            && forall i :: 0 <= i < |card| ==>
                 (FPGA_OFFSET + |Padded(fpga)| <= i < FIRMWARE_OFFSET || i >= FIRMWARE_OFFSET + |Padded(fw)|) ==>
                 c[i] == card[i]
  {
    PaddingFits(|fw|);
    PaddingFits(|fpga|);
  }

  /** One image alone is there too, and nothing outside its padded range changed. */
  lemma OneImageIntact(card: seq<Byte>, image: seq<Byte>)
    ensures Trouble(Some(image), FIRMWARE_OFFSET, |card|).None? ==>
      var c := Burned(card, Some(image), None);
      && Holds(c, image, 0x10_0000)
      && c[..0x10_0000] == card[..0x10_0000] && c[0x10_0000 + |Padded(image)|..] == card[0x10_0000 + |Padded(image)|..]
    ensures Trouble(Some(image), FPGA_OFFSET, |card|).None? ==>
      var c := Burned(card, None, Some(image));
      Holds(c, image, 0) && c[|Padded(image)|..] == card[|Padded(image)|..]
    ensures Burned(card, None, None) == card
  {
    PaddingFits(|image|);
  }

  /** An image one byte over the limit would, padded, run into the next slot: the
      limit is the largest for which burning the FPGA image leaves the firmware. */
  lemma LimitIsTight(size: nat)
    ensures FPGA_OFFSET + SECTOR_SIZE * IntCeilDiv(size, SECTOR_SIZE) <= FIRMWARE_OFFSET <==> size <= MAX_FILE_SIZE
  {
    PaddingFits(size);
  }
}
