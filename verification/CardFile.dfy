/** buopen and burename on the bytes of a memory card. */
module CardFile {
  import opened Directory

  const CARD_SIZE := 0x2_0000

  /** The directory frames at the start of the card. */
  ghost function DirOf(b: seq<Byte>): Dir
    requires |b| >= FRAMES * FRAME
  {
    seq(FRAMES, i requires 0 <= i < FRAMES => FrameOf(b, i))
  }

  ghost function FrameOf(b: seq<Byte>, i: nat): Frame
    requires |b| >= FRAMES * FRAME && i < FRAMES
  {
    b[FRAME * i..FRAME * i + FRAME]
  }

  lemma PokeFrame(b: seq<Byte>, i: nat, o: nat, v: Byte)
    requires |b| >= FRAMES * FRAME && i < FRAMES && o < FRAME
    ensures DirOf(b[FRAME * i + o := v]) == DirOf(b)[i := DirOf(b)[i][o := v]]
  {
  }

  /** The new file while frame f + m is still without its link. */
  ghost function Base(d: Dir, f: nat, nblk: nat, name: seq<Byte>, m: nat): Frame
    requires |name| <= NAME_MAX && f < FRAMES
  {
    if m == 0 then First(d[f], nblk, name) else Next(m + 1 == nblk)
  }

  ghost function GrowingFrame(d: Dir, f: nat, nblk: nat, name: seq<Byte>, m: nat, k: nat): Frame
    requires |name| <= NAME_MAX && f < FRAMES && k < FRAMES
  {
    if f <= k < f + m then Sealed(Linked(Base(d, f, nblk, name, k - f), k as Byte, 0))
    else if k == f + m then Base(d, f, nblk, name, m)
    else d[k]
  }

  ghost function Growing(d: Dir, f: nat, nblk: nat, name: seq<Byte>, m: nat): Dir
    requires |name| <= NAME_MAX && f < FRAMES
  {
    seq(FRAMES, k requires 0 <= k < FRAMES => GrowingFrame(d, f, nblk, name, m, k))
  }

  lemma GrowingStarts(d: Dir, f: nat, nblk: nat, name: seq<Byte>)
    requires |name| <= NAME_MAX && f < FRAMES
    ensures d[f := First(d[f], nblk, name)] == Growing(d, f, nblk, name, 0)
  {
  }

  /** The next frame is laid out, and the one before is linked to it and sealed. */
  lemma GrowingNext(d: Dir, f: nat, nblk: nat, name: seq<Byte>, p: nat, last: bool)
    requires |name| <= NAME_MAX && f <= p && p + 1 < FRAMES && (last <==> p - f + 2 == nblk)
    ensures var g := Growing(d, f, nblk, name, p - f)[p + 1 := Next(last)];
            g[p := Sealed(Linked(g[p], p as Byte, 0))] == Growing(d, f, nblk, name, p + 1 - f)
  {
  }

  lemma GrowingEnds(d: Dir, f: nat, nblk: nat, name: seq<Byte>, m: nat)
    requires |name| <= NAME_MAX && f + m == LastFrame(f, nblk) < FRAMES
    ensures var g := Growing(d, f, nblk, name, m);
            g[f + m := Sealed(Linked(g[f + m], 0xFF, 0xFF))] == Created(d, f, nblk, name)
  {
  }

  ghost function ClearedTo(f: Frame, k: nat): Frame
    requires k <= FRAME
  {
    seq(k, _ => 0) + f[k..]
  }

  lemma ClearedNext(f: Frame, k: nat)
    requires k < FRAME
    ensures ClearedTo(f, k)[k := 0] == ClearedTo(f, k + 1)
  {
  }

  lemma ClearedEnds(f: Frame)
    ensures ClearedTo(f, 0) == f && ClearedTo(f, FRAME) == seq(FRAME, _ => 0)
  {
  }

  ghost function Written(f: Frame, s: seq<Byte>): Frame
    requires |s| <= RENAME_MAX
  {
    f[..NAME] + s + f[NAME + |s|..]
  }

  lemma WrittenNext(f: Frame, s: seq<Byte>, k: nat)
    requires k < |s| <= RENAME_MAX
    ensures Written(f, s[..k])[NAME + k := s[k]] == Written(f, s[..k + 1])
  {
  }

  ghost function Padded(f: Frame, n: nat, k: nat): Frame
    requires n + k <= RENAME_MAX
  {
    f[..NAME + n] + seq(k, _ => 0) + f[NAME + n + k..]
  }

  lemma PaddedNext(f: Frame, n: nat, k: nat)
    requires n + k < RENAME_MAX
    ensures Padded(f, n, k)[NAME + n + k := 0] == Padded(f, n, k + 1)
  {
  }

  lemma PaddedName(f: Frame, name: seq<Byte>)
    requires |name| <= RENAME_MAX
    ensures Padded(Written(f, name), |name|, RENAME_MAX - |name|) == Retitled(f, name)
  {
  }

  class FileDesc {
    var name: seq<Byte>
    var offset: nat
    var mode: bv32
    var mcfile: nat
  }

  class Card {
    const data: array<Byte>

    constructor ()
      ensures fresh(data) && Valid()
    {
      data := new Byte[CARD_SIZE](_ => 0);
    }

    predicate Valid() {
      data.Length == CARD_SIZE
    }

    ghost function Frames(): Dir
      requires Valid()
      reads data
    {
      DirOf(data[..])
    }

    /** One byte of a frame written. */
    method Poke(i: nat, o: nat, v: Byte)
      requires Valid() && i < FRAMES && o < FRAME
      modifies data
      ensures Frames() == old(Frames())[i := old(Frames())[i][o := v]]
      ensures data[FRAMES * FRAME..] == old(data[FRAMES * FRAME..])
    {
      PokeFrame(data[..], i, o, v);
      ghost var b := data[..];
      data[FRAME * i + o] := v;
      assert data[..] == b[FRAME * i + o := v];
    }

    function Peek(i: nat, o: nat): (v: Byte)
      requires Valid() && i < FRAMES && o < FRAME
      reads data
      ensures v == Frames()[i][o]
    {
      assert data[FRAME * i + o] == FrameOf(data[..], i)[o];
      data[FRAME * i + o]
    }

    /** The checksum loop. */
    method Seal(i: nat)
      requires Valid() && i < FRAMES
      modifies data
      ensures Frames() == old(Frames())[i := Sealed(old(Frames())[i])]
      ensures data[FRAMES * FRAME..] == old(data[FRAMES * FRAME..])
    {
      var xorx: Byte := 0;
      ghost var f := Frames()[i];
      for k := 0 to FRAME - 1
        invariant xorx == Xor(f[..k])
      {
        assert f[..k + 1][..k] == f[..k];
        xorx := xorx ^ Peek(i, k);
      }
      Poke(i, FRAME - 1, xorx);
    }

    /** memset of a whole frame. */
    method Clear(i: nat)
      requires Valid() && i < FRAMES
      modifies data
      ensures Frames() == old(Frames())[i := seq(FRAME, _ => 0)]
      ensures data[FRAMES * FRAME..] == old(data[FRAMES * FRAME..])
    {
      ghost var d := Frames();
      ClearedEnds(d[i]);
      for k := 0 to FRAME
        invariant Frames() == d[i := ClearedTo(d[i], k)]
        invariant data[FRAMES * FRAME..] == old(data[FRAMES * FRAME..])
      {
        ClearedNext(d[i], k);
        Poke(i, k, 0);
      }
    }

    /** strcpy to the name of a frame. */
    method SetTitle(i: nat, name: seq<Byte>)
      requires Valid() && i < FRAMES && |name| <= NAME_MAX
      modifies data
      ensures Frames() == old(Frames())[i := Titled(old(Frames())[i], name)]
      ensures data[FRAMES * FRAME..] == old(data[FRAMES * FRAME..])
    {
      ghost var d := Frames();
      PutName(i, name);
      Poke(i, NAME + |name|, 0);
      assert Written(d[i], name)[NAME + |name| := 0] == Titled(d[i], name);
    }

    /** memcpy of a name to a frame. */
    method PutName(i: nat, name: seq<Byte>)
      requires Valid() && i < FRAMES && |name| <= RENAME_MAX
      modifies data
      ensures Frames() == old(Frames())[i := Written(old(Frames())[i], name)]
      ensures data[FRAMES * FRAME..] == old(data[FRAMES * FRAME..])
    {
      ghost var d := Frames();
      assert name[..|name|] == name;
      assert Written(d[i], name[..0]) == d[i];
      for k := 0 to |name|
        invariant Frames() == d[i := Written(d[i], name[..k])]
        invariant data[FRAMES * FRAME..] == old(data[FRAMES * FRAME..])
      {
        WrittenNext(d[i], name, k);
        Poke(i, NAME + k, name[k]);
      }
    }

    /** strcmp with the name of a frame. */
    method HasName(i: nat, name: seq<Byte>) returns (same: bool)
      requires Valid() && i < FRAMES && |name| <= RENAME_MAX
      ensures same <==> Named(Frames()[i], name)
      ensures IsString(name) ==> (same <==> NameOf(Frames()[i]) == name)
    {
      hide NameOf;
      if IsString(name) {
        NamedIff(Frames()[i], name);
      }
      ghost var f := Frames()[i];
      for k := 0 to |name|
        invariant forall n :: 0 <= n < k ==> f[NAME + n] == name[n]
      {
        if Peek(i, NAME + k) != name[k] {
          assert f[NAME..NAME + |name|][k] != name[k];
          return false;
        }
      }
      return Peek(i, NAME + |name|) == 0;
    }

    /** The search for a file: frame 16 means that there is none. */
    method Search(name: seq<Byte>) returns (i: nat)
      requires Valid() && |name| <= RENAME_MAX
      ensures i == Find(Frames(), name, 1)
      ensures IsString(name) ==>
        && (i < FRAMES ==> 0x50 <= Frames()[i][0] <= 0x5F && NameOf(Frames()[i]) == name)
        && forall k :: 1 <= k < i ==> !(0x50 <= Frames()[k][0] <= 0x5F && NameOf(Frames()[k]) == name)
    {
      if IsString(name) {
        FindIsFirst(Frames(), name, 1);
      }
      i := 1;
      while i < FRAMES
        invariant 1 <= i <= FRAMES && Find(Frames(), name, i) == Find(Frames(), name, 1)
      {
        if Peek(i, 0) & 0xF0 == 0x50 {
          var same := HasName(i, name);
          if same {
            break;
          }
        }
        i := i + 1;
      }
    }

    /** The search for a free frame. */
    method SearchAvailable() returns (i: nat)
      requires Valid()
      ensures i == FindAvailable(Frames(), 1)
    {
      i := 1;
      while i < FRAMES && Peek(i, 0) & 0xF0 != 0xA0
        invariant 1 <= i <= FRAMES && FindAvailable(Frames(), i) == FindAvailable(Frames(), 1)
      {
        i := i + 1;
      }
    }

    /** The first frame of a new file, before its link. */
    method Start(i: nat, nblk: nat, name: seq<Byte>)
      requires Valid() && i < FRAMES && |name| <= NAME_MAX
      modifies data
      ensures Frames() == old(Frames())[i := First(old(Frames())[i], nblk, name)]
      ensures data[FRAMES * FRAME..] == old(data[FRAMES * FRAME..])
    {
      Poke(i, 0, 0x51);
      Poke(i, 4, 0);
      Poke(i, 5, SizeByte(nblk));
      Poke(i, 6, 0);
      Poke(i, 7, 0);
      SetTitle(i, name);
    }

    /** A further frame of it, before its link. */
    method Append(i: nat, last: bool)
      requires Valid() && i < FRAMES
      modifies data
      ensures Frames() == old(Frames())[i := Next(last)]
      ensures data[FRAMES * FRAME..] == old(data[FRAMES * FRAME..])
    {
      ghost var zero: Frame := seq(FRAME, _ => 0);
      ghost var state: Byte := if last then 0x53 else 0x52;
      assert Next(last) == zero[0 := state];
      Clear(i);
      Poke(i, 0, if last then 0x53 else 0x52);
    }

    method Link(i: nat, lo: Byte, hi: Byte)
      requires Valid() && i < FRAMES
      modifies data
      ensures Frames() == old(Frames())[i := Sealed(Linked(old(Frames())[i], lo, hi))]
      ensures data[FRAMES * FRAME..] == old(data[FRAMES * FRAME..])
    {
      Poke(i, 8, lo);
      Poke(i, 9, hi);
      Seal(i);
    }

    /** A further frame laid out at i, and the one before linked to it. */
    method Extend(p: nat, i: nat, last: bool)
      requires Valid() && i < FRAMES && p == i - 1
      modifies data
      ensures var g := old(Frames())[i := Next(last)];
              Frames() == g[p := Sealed(Linked(g[p], p as Byte, 0))]
      ensures data[FRAMES * FRAME..] == old(data[FRAMES * FRAME..])
    {
      Append(i, last);
      Link(p, (i - 1) as Byte, 0);
    }

    /** The frames of a new file from frame f on. */
    method Create(f: nat, nblk: nat, name: seq<Byte>)
      requires Valid() && f < FRAMES && |name| <= NAME_MAX
      modifies data
      ensures Frames() == Created(old(Frames()), f, nblk, name)
      ensures data[FRAMES * FRAME..] == old(data[FRAMES * FRAME..])
    {
      hide First, Next, Growing, Created, Sealed, Linked;
      ghost var d := Frames();
      var i := f;
      Start(f, nblk, name);
      GrowingStarts(d, f, nblk, name);
      var p := f;
      var j := 2;
      while j <= nblk
        invariant 2 <= j && (nblk >= 2 ==> j <= nblk + 1) && (nblk < 2 ==> j == 2) && i == f + j - 2
        invariant p == if i < FRAMES then i else FRAMES - 1
        invariant Frames() == Growing(d, f, nblk, name, p - f)
        invariant data[FRAMES * FRAME..] == old(data[FRAMES * FRAME..])
      {
        i := i + 1;
        if i < FRAMES {
          var last := j == nblk;
          GrowingNext(d, f, nblk, name, p, last);
          Extend(p, i, last);
          p := i;
        }
        j := j + 1;
      }
      GrowingEnds(d, f, nblk, name, p - f);
      Link(p, 0xFF, 0xFF);
    }

    /** buopen, for a card in slot mcd and the name after the device prefix. The result is v0. */
    method BuOpen(mcd: nat, name: seq<Byte>, a1: bv32, desc: FileDesc) returns (v0: int)
      requires Valid() && |name| <= NAME_MAX && IsString(name)
      modifies data, desc
      ensures desc.name == name && desc.offset == 0 && desc.mode == a1
      ensures data[FRAMES * FRAME..] == old(data[FRAMES * FRAME..])
      ensures var i := Find(old(Frames()), name, 1);
              i < FRAMES ==> Frames() == old(Frames()) && desc.mcfile == i && v0 == if a1 & 0x200 != 0 then -1 else 1 + mcd
      ensures var d := old(Frames());
              Find(d, name, 1) == FRAMES && !(a1 & 0x200 != 0 && FindAvailable(d, 1) < FRAMES) ==>
                Frames() == d && desc.mcfile == old(desc.mcfile) && v0 == -1
      ensures var d := old(Frames());
              var f := FindAvailable(d, 1);
              Find(d, name, 1) == FRAMES && a1 & 0x200 != 0 && f < FRAMES ==>
                Frames() == Created(d, f, (a1 >> 16) as nat, name) && desc.mcfile == f && v0 == 1 + mcd
      ensures v0 != -1 ==>
        desc.mcfile == Find(Frames(), name, 1) < FRAMES && NameOf(Frames()[desc.mcfile]) == name
    {
      hide Find, FindAvailable, Created;
      v0 := -1;
      desc.name := name;
      desc.offset := 0;
      desc.mode := a1;
      var i := Search(name);
      if i < FRAMES {
        desc.mcfile := i;
        v0 := 1 + mcd;
      }
      if a1 & 0x200 != 0 {
        if v0 == -1 {
          i := SearchAvailable();
          if i < FRAMES {
            desc.mcfile := i;
            CreatedIsFound(Frames(), i, (a1 >> 16) as nat, name);
            Create(i, (a1 >> 16) as nat, name);
            v0 := 1 + mcd;
          }
        } else {
          v0 := -1;
        }
      }
      if v0 != -1 {
        NamedIff(Frames()[desc.mcfile], name);
      }
    }

    /** burename: v0 is 1 when a file has the old name. */
    method BuRename(was: seq<Byte>, name: seq<Byte>) returns (v0: int)
      requires Valid() && |was| <= RENAME_MAX && |name| <= RENAME_MAX && IsString(was) && IsString(name)
      modifies data
      ensures data[FRAMES * FRAME..] == old(data[FRAMES * FRAME..])
      ensures var i := Find(old(Frames()), was, 1);
              i < FRAMES ==> Frames() == Renamed(old(Frames()), i, name) && v0 == 1
      ensures Find(old(Frames()), was, 1) == FRAMES ==> Frames() == old(Frames()) && v0 == 0
    {
      hide Find, NameOf, Padded, Written, Retitled, Sealed;
      v0 := 0;
      var i := Search(was);
      if i < FRAMES {
        PaddedName(Frames()[i], name);
        PutName(i, name);
        Pad(i, |name|);
        Seal(i);
        v0 := 1;
      }
    }

    /** memset of the rest of the name field, up to the checksum. */
    method Pad(i: nat, n: nat)
      requires Valid() && i < FRAMES && n <= RENAME_MAX
      modifies data
      ensures Frames() == old(Frames())[i := Padded(old(Frames())[i], n, RENAME_MAX - n)]
      ensures data[FRAMES * FRAME..] == old(data[FRAMES * FRAME..])
    {
      ghost var d := Frames();
      assert Padded(d[i], n, 0) == d[i];
      for k := 0 to RENAME_MAX - n
        invariant Frames() == d[i := Padded(d[i], n, k)]
        invariant data[FRAMES * FRAME..] == old(data[FRAMES * FRAME..])
      {
        PaddedNext(d[i], n, k);
        Poke(i, NAME + n + k, 0);
      }
    }
  }
}
