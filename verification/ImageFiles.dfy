/** Image files of the five drivers: one format each, told apart by nothing but the size of the file. */
module ImageFiles {
  import opened Bytes
  import Bf888s

  const MEM_SIZE := 0x7000

  datatype Device = Uv5r | Uv5rAged | UvB5 | Bf888 | Ft60r

  datatype Guess = Known(device: Device) | Unrecognised

  /** radio_read_image: the size of the file selects the driver. */
  function GuessDevice(size: nat): Guess {
    if size == 6472 then Known(Uv5r)
    else if size == 6152 then Known(Uv5rAged)
    else if size == 4144 then Known(UvB5)
    else if size == 992 then Known(Bf888)
    else if size == 28616 || size == 31435 then Known(Ft60r)
    else Unrecognised
  }

  const FT60R_SIZE := 0x6fc8

  /** The forty bytes between identifier and memory that make the file readable by Chirp. */
  function ChirpHeader(): (h: seq<byte>)
    ensures |h| == 40
  {
    [0x52, 0x61, 0x64, 0x69, 0x6f, 0x20, 0x50, 0x72, 0x6f, 0x67, 0x72, 0x61, 0x6d, 0x20, 0x64, 0x61,
     0x74, 0x61, 0x20, 0x76, 0x31, 0x2e, 0x30, 0x38] + seq(16, _ => 0)
  }

  // ---- Saving ----

  function SaveImage(d: Device, ident: seq<byte>, mem: seq<byte>): seq<byte>
    requires |ident| == 8 && |mem| == MEM_SIZE
  {
    match d
    case Uv5r => ident + mem[..0x1800] + mem[0x1ec0..0x2000]
    case Uv5rAged => ident + mem[..0x1800]
    case UvB5 => ident + ChirpHeader() + mem[..0x1000]
    case Bf888 => Bf888s.SaveImage(ident, mem[..Bf888s.MEM])
    case Ft60r => MemoryAfterSave(d, ident, mem)[..FT60R_SIZE]
  }

  /** Saving an FT-60R image also puts the identifier into the memory. */
  function MemoryAfterSave(d: Device, ident: seq<byte>, mem: seq<byte>): (m: seq<byte>)
    requires |ident| == 8 && |mem| == MEM_SIZE
    ensures |m| == MEM_SIZE
  {
    if d.Ft60r? then Splice(mem, 0, ident) else mem
  }

  // ---- Reading ----

  datatype Image = Image(ident: seq<byte>, mem: seq<byte>) | Unreadable

  function ReadAs(d: Device, file: seq<byte>, before: seq<byte>): (i: Image)
    requires |before| == MEM_SIZE
    ensures i.Image? ==> |i.ident| == 8 && |i.mem| == MEM_SIZE
  {
    match d
    case Uv5r =>
      if |file| < 8 + 0x1800 + 0x140 then Unreadable
      else
        var main, rest := file[8..8 + 0x1800], file[8 + 0x1800..8 + 0x1800 + 0x140];
        Image(file[..8], Splice(Splice(before, 0, main), 0x1ec0, rest))
    case Uv5rAged =>
      if |file| < 8 + 0x1800 then Unreadable
      else Image(file[..8], Splice(before, 0, file[8..8 + 0x1800]))
    case UvB5 =>
      if |file| < 48 + 0x1000 then Unreadable
      else Image(file[..8], Splice(before, 0, file[48..48 + 0x1000]))
    case Bf888 =>
      (match Bf888s.ReadImage(file, before[..Bf888s.MEM])
       case Unreadable => Unreadable
       case Image(ident, mem) => Image(ident, mem + before[Bf888s.MEM..]))
    case Ft60r =>
      if |file| < FT60R_SIZE then Unreadable
      else Image(file[..8], Splice(before, 0, file[..FT60R_SIZE]))
  }

  function ReadImage(file: seq<byte>, before: seq<byte>): (i: Image)
    requires |before| == MEM_SIZE
    ensures i.Image? ==> |i.ident| == 8 && |i.mem| == MEM_SIZE
  {
    match GuessDevice(|file|)
    case Unrecognised => Unreadable
    case Known(d) => ReadAs(d, file, before)
  }

  // ---- The two together ----

  /** The addresses a format stores. */
  predicate Stored(d: Device, a: nat) {
    match d
    case Uv5r => a < 0x1800 || 0x1ec0 <= a < 0x2000
    case Uv5rAged => a < 0x1800
    case UvB5 => a < 0x1000
    case Bf888 => 0x10 <= a < 0x3e0 && !Bf888s.Normalised(a)
    case Ft60r => a < FT60R_SIZE
  }

  /** What a saved file selects is the driver that wrote it. */
  lemma SaveSelectsDriver(d: Device, ident: seq<byte>, mem: seq<byte>)
    requires |ident| == 8 && |mem| == MEM_SIZE
    ensures GuessDevice(|SaveImage(d, ident, mem)|) == Known(d)
  {
  }

  /** What reading back gives, address by address: the stored bytes, 0xff where the BF-888S block was moved from, and
      what was there before everywhere else. */
  function ReadBackAt(d: Device, ident: seq<byte>, mem: seq<byte>, before: seq<byte>, a: nat): byte
    requires |ident| == 8 && |mem| == |before| == MEM_SIZE && a < MEM_SIZE
  {
    if Stored(d, a) then MemoryAfterSave(d, ident, mem)[a]
    else if d.Bf888? && Bf888s.Normalised(a) then 0xff
    else before[a]
  }

  lemma Uv5rReadBack(ident: seq<byte>, mem: seq<byte>, before: seq<byte>, a: nat)
    requires |ident| == 8 && |mem| == |before| == MEM_SIZE && a < MEM_SIZE
    ensures var i := ReadAs(Uv5r, SaveImage(Uv5r, ident, mem), before);
            i.Image? && i.ident == ident && i.mem[a] == ReadBackAt(Uv5r, ident, mem, before, a)
  {
    hide Splice;
    var file := SaveImage(Uv5r, ident, mem);
    assert file[8..8 + 0x1800] == mem[..0x1800] && file[8 + 0x1800..8 + 0x1800 + 0x140] == mem[0x1ec0..0x2000];
    SpliceAt(before, 0, mem[..0x1800], a);
    SpliceAt(Splice(before, 0, mem[..0x1800]), 0x1ec0, mem[0x1ec0..0x2000], a);
  }

  lemma AgedReadBack(ident: seq<byte>, mem: seq<byte>, before: seq<byte>, a: nat)
    requires |ident| == 8 && |mem| == |before| == MEM_SIZE && a < MEM_SIZE
    ensures var i := ReadAs(Uv5rAged, SaveImage(Uv5rAged, ident, mem), before);
            i.Image? && i.ident == ident && i.mem[a] == ReadBackAt(Uv5rAged, ident, mem, before, a)
  {
    hide Splice;
    assert SaveImage(Uv5rAged, ident, mem)[8..8 + 0x1800] == mem[..0x1800];
    SpliceAt(before, 0, mem[..0x1800], a);
  }

  lemma UvB5ReadBack(ident: seq<byte>, mem: seq<byte>, before: seq<byte>, a: nat)
    requires |ident| == 8 && |mem| == |before| == MEM_SIZE && a < MEM_SIZE
    ensures var i := ReadAs(UvB5, SaveImage(UvB5, ident, mem), before);
            i.Image? && i.ident == ident && i.mem[a] == ReadBackAt(UvB5, ident, mem, before, a)
  {
    hide Splice, ChirpHeader;
    assert SaveImage(UvB5, ident, mem)[48..48 + 0x1000] == mem[..0x1000];
    SpliceAt(before, 0, mem[..0x1000], a);
  }

  lemma Bf888ReadBack(ident: seq<byte>, mem: seq<byte>, before: seq<byte>, a: nat)
    requires |ident| == 8 && |mem| == |before| == MEM_SIZE && a < MEM_SIZE
    ensures var i := ReadAs(Bf888, SaveImage(Bf888, ident, mem), before);
            i.Image? && i.ident == ident && i.mem[a] == ReadBackAt(Bf888, ident, mem, before, a)
  {
    hide Bf888s.SaveImage, Bf888s.ReadImage;
    Bf888s.SaveThenRead(ident, mem[..Bf888s.MEM], before[..Bf888s.MEM]);
  }

  lemma Ft60rReadBack(ident: seq<byte>, mem: seq<byte>, before: seq<byte>, a: nat)
    requires |ident| == 8 && |mem| == |before| == MEM_SIZE && a < MEM_SIZE
    ensures var i := ReadAs(Ft60r, SaveImage(Ft60r, ident, mem), before);
            i.Image? && i.ident == ident && i.mem[a] == ReadBackAt(Ft60r, ident, mem, before, a)
  {
    var m := Splice(mem, 0, ident);
    assert m[..8] == ident;
    hide Splice;
    assert m[..FT60R_SIZE][..8] == m[..8] && m[..FT60R_SIZE][..FT60R_SIZE] == m[..FT60R_SIZE];
    SpliceAt(before, 0, m[..FT60R_SIZE], a);
  }

  /** For all five drivers: a saved file is read by its own driver, which restores the identifier and every stored
      byte and leaves the rest of the memory alone. */
  lemma SaveThenRead(d: Device, ident: seq<byte>, mem: seq<byte>, before: seq<byte>)
    requires |ident| == 8 && |mem| == |before| == MEM_SIZE
    ensures var i := ReadImage(SaveImage(d, ident, mem), before);
            && i.Image? && i.ident == ident
            && forall a :: 0 <= a < MEM_SIZE ==> i.mem[a] == ReadBackAt(d, ident, mem, before, a)
  {
    hide SaveImage, ReadAs, ReadBackAt, GuessDevice;
    SaveSelectsDriver(d, ident, mem);
    ReadBack(d, ident, mem, before, 0);
    forall a | 0 <= a < MEM_SIZE
      ensures ReadAs(d, SaveImage(d, ident, mem), before).mem[a] == ReadBackAt(d, ident, mem, before, a)
    {
      ReadBack(d, ident, mem, before, a);
    }
  }

  lemma ReadBack(d: Device, ident: seq<byte>, mem: seq<byte>, before: seq<byte>, a: nat)
    requires |ident| == 8 && |mem| == |before| == MEM_SIZE && a < MEM_SIZE
    ensures var i := ReadAs(d, SaveImage(d, ident, mem), before);
            i.Image? && i.ident == ident && i.mem[a] == ReadBackAt(d, ident, mem, before, a)
  {
    hide SaveImage, ReadAs, ReadBackAt;
    match d
    case Uv5r => Uv5rReadBack(ident, mem, before, a);
    case Uv5rAged => AgedReadBack(ident, mem, before, a);
    case UvB5 => UvB5ReadBack(ident, mem, before, a);
    case Bf888 => Bf888ReadBack(ident, mem, before, a);
    case Ft60r => Ft60rReadBack(ident, mem, before, a);
  }

  /** Saving what was read back writes the same file, whatever the memory held before. */
  lemma SaveAgain(d: Device, ident: seq<byte>, mem: seq<byte>, before: seq<byte>)
    requires |ident| == 8 && |mem| == |before| == MEM_SIZE
    ensures var i := ReadImage(SaveImage(d, ident, mem), before);
            i.Image? && SaveImage(d, i.ident, i.mem) == SaveImage(d, ident, mem)
  {
    SaveThenRead(d, ident, mem, before);
    hide ReadImage;
    SaveLooksAtStored(d, ident, mem, ReadImage(SaveImage(d, ident, mem), before).mem);
  }

  lemma Bf888Depends(ident: seq<byte>, mem: seq<byte>, other: seq<byte>)
    requires |ident| == 8 && |mem| == |other| == MEM_SIZE
    requires forall a :: 0 <= a < MEM_SIZE && Stored(Bf888, a) ==> other[a] == mem[a]
    ensures SaveImage(Bf888, ident, other) == SaveImage(Bf888, ident, mem)
  {
    hide Bf888s.SaveImage;
    forall a | 0 <= a < Bf888s.FILE_SIZE
      ensures SaveImage(Bf888, ident, other)[a] == SaveImage(Bf888, ident, mem)[a]
    {
      Bf888s.SaveImageAt(ident, mem[..Bf888s.MEM], a);
      Bf888s.SaveImageAt(ident, other[..Bf888s.MEM], a);
      if Bf888s.Normalised(a) {
        assert Stored(Bf888, a - 0xc0);
      } else if 0x10 <= a < 0x3e0 {
        assert Stored(Bf888, a);
      }
    }
  }

  lemma SaveLooksAtStored(d: Device, ident: seq<byte>, mem: seq<byte>, other: seq<byte>)
    requires |ident| == 8 && |mem| == |other| == MEM_SIZE
    requires forall a :: 0 <= a < MEM_SIZE && Stored(d, a) ==> other[a] == MemoryAfterSave(d, ident, mem)[a]
    ensures SaveImage(d, ident, other) == SaveImage(d, ident, mem)
  {
    match d {
      case Uv5r =>
        assert other[..0x1800] == mem[..0x1800] && other[0x1ec0..0x2000] == mem[0x1ec0..0x2000];
      case Uv5rAged =>
        assert other[..0x1800] == mem[..0x1800];
      case UvB5 =>
        assert other[..0x1000] == mem[..0x1000];
      case Bf888 =>
        Bf888Depends(ident, mem, other);
      case Ft60r =>
        assert MemoryAfterSave(d, ident, other)[..FT60R_SIZE] == MemoryAfterSave(d, ident, mem)[..FT60R_SIZE];
    }
  }

  // ---- In numbers ----

  /** The sizes that are recognised. */
  lemma SizesInNumbers(size: nat)
    ensures GuessDevice(size) == Known(Uv5r) <==> size == 6472
    ensures GuessDevice(size) == Known(Uv5rAged) <==> size == 6152
    ensures GuessDevice(size) == Known(UvB5) <==> size == 4144
    ensures GuessDevice(size) == Known(Bf888) <==> size == 992
    ensures GuessDevice(size) == Known(Ft60r) <==> size == 28616 || size == 31435
  {
  }

  /** Every byte of a file the UV-5R drivers, the UV-B5 driver and the FT-60R driver write. */
  lemma FilesInNumbers(ident: seq<byte>, mem: seq<byte>, k: nat)
    requires |ident| == 8 && |mem| == MEM_SIZE
    ensures var file := SaveImage(Uv5r, ident, mem);
            && |file| == 6472
            && (k < 6472 ==>
                  file[k] == if k < 8 then ident[k] else if k < 0x1808 then mem[k - 8] else mem[k - 0x1808 + 0x1ec0])
    ensures var file := SaveImage(Uv5rAged, ident, mem);
            |file| == 6152 && (k < 6152 ==> file[k] == if k < 8 then ident[k] else mem[k - 8])
    ensures var file := SaveImage(UvB5, ident, mem);
            && |file| == 4144
            && (k < 8 ==> file[k] == ident[k]) && (48 <= k < 4144 ==> file[k] == mem[k - 48])
    ensures var file := SaveImage(Ft60r, ident, mem);
            |file| == 28616 && (k < 28616 ==> file[k] == if k < 8 then ident[k] else mem[k])
  {
    hide ChirpHeader;
  }

  /** Behind a UV-B5 identifier comes the text "Radio Program data v1.08", and then sixteen zeros. */
  lemma ChirpInNumbers(ident: seq<byte>, mem: seq<byte>)
    requires |ident| == 8 && |mem| == MEM_SIZE
    ensures SaveImage(UvB5, ident, mem)[8..32]
         == [82, 97, 100, 105, 111, 32, 80, 114, 111, 103, 114, 97, 109, 32, 100, 97, 116, 97, 32, 118, 49, 46, 48, 56]
    ensures forall k :: 32 <= k < 48 ==> SaveImage(UvB5, ident, mem)[k] == 0
  {
    var file, h := SaveImage(UvB5, ident, mem), ChirpHeader();
    assert file[8..48] == h && file[8..32] == h[..24];
    assert forall k :: 32 <= k < 48 ==> file[k] == h[k - 8];
  }

  /** Every byte of a file the BF-888S driver writes, and every byte of its memory after reading one. */
  lemma Bf888InNumbers(ident: seq<byte>, mem: seq<byte>, file: seq<byte>, k: nat)
    requires |ident| == 8 && |mem| == MEM_SIZE && |file| == 992 && k < MEM_SIZE
    ensures |SaveImage(Bf888, ident, mem)| == 992
    ensures k < 992 ==>
              SaveImage(Bf888, ident, mem)[k] ==
              if k < 8 then ident[k]
              else if k < 0x10 || 0x2b0 <= k < 0x2c0 then 0xff
              else if 0x370 <= k < 0x380 then mem[k - 0xc0]
              else mem[k]
    ensures ReadImage(file, mem).Image? && ReadImage(file, mem).ident == file[..8]
    ensures ReadImage(file, mem).mem[k] ==
            if 0x370 <= k < 0x380 then 0xff
            else if 0x2b0 <= k < 0x2c0 then file[k + 0xc0]
            else if 0x10 <= k < 0x3e0 then file[k]
            else mem[k]
  {
    hide Bf888s.SaveImage, Bf888s.ReadImage;
    if k < 992 {
      Bf888s.SaveImageAt(ident, mem[..Bf888s.MEM], k);
    }
    if k < Bf888s.MEM {
      Bf888s.ReadImageAt(file, mem[..Bf888s.MEM], k);
    }
    Bf888Readable(file, mem);
  }

  lemma Bf888Readable(file: seq<byte>, mem: seq<byte>)
    requires |file| == 992 && |mem| == MEM_SIZE
    ensures ReadImage(file, mem).Image? && ReadImage(file, mem).ident == file[..8]
    ensures ReadImage(file, mem).mem == Bf888s.ReadImage(file, mem[..0x400]).mem + mem[0x400..]
  {
    hide Splice;
  }

  /** Every byte of the memory after reading a file of the other formats. */
  lemma MemoryInNumbers(file: seq<byte>, mem: seq<byte>, a: nat)
    requires |mem| == MEM_SIZE && a < MEM_SIZE && |file| in {6472, 6152, 4144, 28616, 31435}
    ensures ReadImage(file, mem).Image? && ReadImage(file, mem).ident == file[..8]
    ensures ReadImage(file, mem).mem[a] ==
            if |file| == 6472 then
              (if a < 0x1800 then file[8 + a] else if 0x1ec0 <= a < 0x2000 then file[a - 0x1ec0 + 0x1808] else mem[a])
            else if |file| == 6152 then (if a < 0x1800 then file[8 + a] else mem[a])
            else if |file| == 4144 then (if a < 0x1000 then file[48 + a] else mem[a])
            else if a < 28616 then file[a]
            else mem[a]
  {
    hide Splice;
    if |file| == 6472 {
      SpliceAt(mem, 0, file[8..0x1808], a);
      SpliceAt(Splice(mem, 0, file[8..0x1808]), 0x1ec0, file[0x1808..0x1948], a);
    } else if |file| == 6152 {
      SpliceAt(mem, 0, file[8..0x1808], a);
    } else if |file| == 4144 {
      SpliceAt(mem, 0, file[48..0x1030], a);
    } else {
      SpliceAt(mem, 0, file[..28616], a);
    }
  }

  // ---- In place ----

  class Store {
    const mem: array<byte>

    ghost predicate Valid() {
      mem.Length == MEM_SIZE
    }

    constructor ()
      ensures Valid() && fresh(mem)
    {
      mem := new byte[MEM_SIZE](_ => 0);
    }

    /** On a memory that is there already. */
    constructor Over(mem: array<byte>)
      requires mem.Length == MEM_SIZE
      ensures Valid() && this.mem == mem
    {
      this.mem := mem;
    }

    /** radio_read_image, and the read_image of the driver it selects; false when the program exits. */
    method Read(file: seq<byte>) returns (ok: bool, ident: seq<byte>)
      requires Valid()
      modifies mem
      ensures match ReadImage(file, old(mem[..]))
              case Unreadable => !ok
              case Image(i, m) => ok && ident == i && mem[..] == m
    {
      hide Splice;
      ident := [];
      match GuessDevice(|file|) {
        case Unrecognised =>
          return false, [];
        case Known(d) =>
          ident := file[..8];
          ok := true;
          match d {
            case Uv5r =>
              CopyInto(mem, 0, file[8..8 + 0x1800]);
              CopyInto(mem, 0x1ec0, file[8 + 0x1800..8 + 0x1800 + 0x140]);
            case Uv5rAged =>
              CopyInto(mem, 0, file[8..8 + 0x1800]);
            case UvB5 =>
              CopyInto(mem, 0, file[48..48 + 0x1000]);
            case Bf888 =>
              ReadBf888(file);
            case Ft60r =>
              CopyInto(mem, 0, file[..FT60R_SIZE]);
          }
      }
    }

    method ReadBf888(file: seq<byte>)
      requires Valid() && |file| == Bf888s.FILE_SIZE
      modifies mem
      ensures ReadAs(Bf888, file, old(mem[..])) == Image(file[..8], mem[..])
    {
      hide Splice;
      ghost var before := mem[..];
      CopyInto(mem, 0x10, file[0x10..Bf888s.FILE_SIZE]);
      ghost var m1 := mem[..];
      var moved := mem[..][0x370..0x380];
      CopyInto(mem, 0x2b0, moved);
      ghost var m2 := mem[..];
      CopyInto(mem, 0x370, Bf888s.Blank() + Bf888s.Blank());
      SpliceInFront(before, 0x10, file[0x10..Bf888s.FILE_SIZE]);
      assert m1[..Bf888s.MEM][0x370..0x380] == moved;
      SpliceInFront(m1, 0x2b0, moved);
      SpliceInFront(m2, 0x370, Bf888s.Blank() + Bf888s.Blank());
    }

    method SaveBf888(ident: seq<byte>) returns (file: seq<byte>)
      requires Valid() && |ident| == 8
      ensures file == Bf888s.SaveImage(ident, mem[..][..Bf888s.MEM])
    {
      hide Bf888s.Blank;
      var front := mem[..][..Bf888s.MEM];
      file := ident;
      file := file + Bf888s.Blank();
      file := file + front[0x10..0x2b0];
      file := file + Bf888s.Blank();
      file := file + Bf888s.Blank();
      file := file + front[0x2c0..0x370];
      file := file + front[0x2b0..0x2c0];
      file := file + front[0x380..0x3e0];
    }

    /** The save_image of a driver. */
    method Save(d: Device, ident: seq<byte>) returns (file: seq<byte>)
      requires Valid() && |ident| == 8
      modifies mem
      ensures file == SaveImage(d, ident, old(mem[..]))
      ensures mem[..] == MemoryAfterSave(d, ident, old(mem[..]))
      ensures GuessDevice(|file|) == Known(d)
    {
      hide Splice, Bf888s.SaveImage, GuessDevice, ChirpHeader;
      ghost var before := mem[..];
      SaveSelectsDriver(d, ident, before);
      match d {
        case Uv5r =>
          file := ident + mem[..][..0x1800];
          file := file + mem[..][0x1ec0..0x2000];
        case Uv5rAged =>
          file := ident + mem[..][..0x1800];
        case UvB5 =>
          file := ident + ChirpHeader();
          file := file + mem[..][..0x1000];
        case Bf888 =>
          file := SaveBf888(ident);
        case Ft60r =>
          CopyInto(mem, 0, ident);
          file := mem[..][..FT60R_SIZE];
      }
    }
  }

  /** Copying into the front part of a memory, or copying and taking the front part. */
  lemma SpliceInFront(m: seq<byte>, at: nat, field: seq<byte>)
    requires |m| == MEM_SIZE && at + |field| <= Bf888s.MEM
    ensures Splice(m, at, field)[..Bf888s.MEM] == Splice(m[..Bf888s.MEM], at, field)
    ensures Splice(m, at, field)[Bf888s.MEM..] == m[Bf888s.MEM..]
    ensures Splice(m, at, field) == Splice(m[..Bf888s.MEM], at, field) + m[Bf888s.MEM..]
  {
  }
}
