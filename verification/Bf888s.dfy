/** The BF-888S image file, with the settings block that moves inside it. */
module Bf888s {
  import opened Bytes

  const MEM := 0x400
  const FILE_SIZE := 992

  function Blank(): seq<byte> {
    [0xff, 0xff, 0xff, 0xff, 0xff, 0xff, 0xff, 0xff]
  }

  /** bf888s_save_image: the settings block goes to 0x370, and its own place is left blank. */
  function SaveImage(ident: seq<byte>, mem: seq<byte>): (file: seq<byte>)
    requires |ident| == 8 && |mem| == MEM
    ensures |file| == FILE_SIZE
  {
    ident + Blank() + mem[0x10..0x2b0] + Blank() + Blank() + mem[0x2c0..0x370] + mem[0x2b0..0x2c0] + mem[0x380..0x3e0]
  }

  datatype Image = Image(ident: seq<byte>, mem: seq<byte>) | Unreadable

  /** bf888s_read_image over a memory that held `before`. */
  function ReadImage(file: seq<byte>, before: seq<byte>): (i: Image)
    requires |before| == MEM
    ensures i.Image? ==> |i.ident| == 8 && |i.mem| == MEM
  {
    if |file| < FILE_SIZE then Unreadable
    else
      var mem := Splice(before, 0x10, file[0x10..FILE_SIZE]);
      var moved := Splice(mem, 0x2b0, mem[0x370..0x380]);
      Image(file[..8], Splice(moved, 0x370, Blank() + Blank()))
  }

  predicate Normalised(a: nat) {
    0x370 <= a < 0x380
  }

  lemma ReadImageAt(file: seq<byte>, before: seq<byte>, a: nat)
    requires |before| == MEM && |file| >= FILE_SIZE && a < MEM
    ensures ReadImage(file, before).mem[a] ==
            if Normalised(a) then 0xff
            else if 0x2b0 <= a < 0x2c0 then file[a + 0xc0]
            else if 0x10 <= a < 0x3e0 then file[a]
            else before[a]
  {
    hide Splice;
    var mem := Splice(before, 0x10, file[0x10..FILE_SIZE]);
    var moved := Splice(mem, 0x2b0, mem[0x370..0x380]);
    SpliceAt(before, 0x10, file[0x10..FILE_SIZE], a);
    SpliceAt(mem, 0x2b0, mem[0x370..0x380], a);
    SpliceAt(moved, 0x370, Blank() + Blank(), a);
    if 0x2b0 <= a < 0x2c0 {
      SpliceAt(before, 0x10, file[0x10..FILE_SIZE], a + 0xc0);
    }
  }

  lemma SaveImageAt(ident: seq<byte>, mem: seq<byte>, a: nat)
    requires |ident| == 8 && |mem| == MEM && a < FILE_SIZE
    ensures SaveImage(ident, mem)[a] ==
            if a < 8 then ident[a]
            else if a < 0x10 || 0x2b0 <= a < 0x2c0 then 0xff
            else if Normalised(a) then mem[a - 0xc0]
            else mem[a]
  {
  }

  /** Reading a saved image restores the identifier and every byte of 0x10..0x3e0, but 0x370..0x380 is erased. */
  lemma SaveThenRead(ident: seq<byte>, mem: seq<byte>, before: seq<byte>)
    requires |ident| == 8 && |mem| == |before| == MEM
    ensures var i := ReadImage(SaveImage(ident, mem), before);
            && i.Image? && i.ident == ident
            && forall a :: 0 <= a < MEM ==>
                 i.mem[a] == if Normalised(a) then 0xff else if 0x10 <= a < 0x3e0 then mem[a] else before[a]
  {
    var file := SaveImage(ident, mem);
    hide SaveImage, ReadImage;
    var i := ReadImage(file, before);
    ReadIdent(ident, mem, before);
    forall a | 0 <= a < MEM
      ensures i.mem[a] == if Normalised(a) then 0xff else if 0x10 <= a < 0x3e0 then mem[a] else before[a]
    {
      ReadImageAt(file, before, a);
      if 0x2b0 <= a < 0x2c0 {
        SaveImageAt(ident, mem, a + 0xc0);
      } else if 0x10 <= a < 0x3e0 && !Normalised(a) {
        SaveImageAt(ident, mem, a);
      }
    }
  }

  lemma ReadIdent(ident: seq<byte>, mem: seq<byte>, before: seq<byte>)
    requires |ident| == 8 && |mem| == |before| == MEM
    ensures ReadImage(SaveImage(ident, mem), before).Image?
    ensures ReadImage(SaveImage(ident, mem), before).ident == ident
  {
    hide Splice;
  }

  /** Saving what was read gives the file back exactly when its two ignored places are blank. */
  lemma ReadThenSave(file: seq<byte>, before: seq<byte>)
    requires |before| == MEM && |file| == FILE_SIZE
    ensures var i := ReadImage(file, before);
            SaveImage(i.ident, i.mem) == file
            <==> forall a :: 8 <= a < 0x10 || 0x2b0 <= a < 0x2c0 ==> file[a] == 0xff
  {
    var i := ReadImage(file, before);
    assert i.ident == file[..8];
    hide SaveImage, ReadImage;
    forall a | 0 <= a < FILE_SIZE
      ensures SaveImage(i.ident, i.mem)[a] == if 8 <= a < 0x10 || 0x2b0 <= a < 0x2c0 then 0xff else file[a]
    {
      SaveImageAt(i.ident, i.mem, a);
      ReadImageAt(file, before, a);
      if Normalised(a) { ReadImageAt(file, before, a - 0xc0); }
    }
  }
}
