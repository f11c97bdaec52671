/** The directory of a memory card: sixteen frames of 128 bytes, with link chains and XOR checksums. */
module Directory {
  const FRAME := 128
  const FRAMES := 16
  const NAME := 0xA
  const NAME_MAX := 31      // what a file descriptor holds, without the final zero
  const RENAME_MAX := 0x75  // what rename can clear up to the checksum

  type Byte = bv8

  type Frame = f: seq<Byte> | |f| == FRAME witness seq(FRAME, _ => 0)

  type Dir = d: seq<Frame> | |d| == FRAMES witness seq(FRAMES, _ => seq(FRAME, _ => 0 as Byte))

  /** A C string without its final zero. */
  ghost predicate IsString(s: seq<Byte>) {
    forall k :: 0 <= k < |s| ==> s[k] != 0
  }

  function Xor(s: seq<Byte>): Byte {
    if s == [] then 0 else Xor(s[..|s| - 1]) ^ s[|s| - 1]
  }

  // The single bits of a byte.
  const BITS: seq<Byte> := [0x01, 0x02, 0x04, 0x08, 0x10, 0x20, 0x40, 0x80]

  /** How many of the bytes have the bit. */
  function Ones(s: seq<Byte>, bit: Byte): nat {
    if s == [] then 0 else Ones(s[..|s| - 1], bit) + if s[|s| - 1] & bit != 0 then 1 else 0
  }

  lemma XorBit(a: Byte, b: Byte, bit: Byte)
    requires bit in BITS
    ensures (a ^ b) & bit != 0 <==> (a & bit != 0) != (b & bit != 0)
  {
  }

  /** A bit of the XOR is set exactly when an odd number of bytes have it. */
  lemma {:induction false} XorIsParity(s: seq<Byte>, bit: Byte)
    requires bit in BITS
    ensures Xor(s) & bit != 0 <==> Ones(s, bit) % 2 == 1
  {
    if s != [] {
      XorIsParity(s[..|s| - 1], bit);
      XorBit(Xor(s[..|s| - 1]), s[|s| - 1], bit);
    }
  }

  // ----- frames -----

  predicate InUse(f: Frame) {
    f[0] & 0xF0 == 0x50
  }

  predicate Available(f: Frame) {
    f[0] & 0xF0 == 0xA0
  }

  /** strcmp finds the frame's name equal to the string. */
  predicate Named(f: Frame, name: seq<Byte>)
    requires |name| <= RENAME_MAX
  {
    f[NAME..NAME + |name|] == name && f[NAME + |name|] == 0
  }

  /** The bytes from o on, up to the first zero or the end of the frame. */
  ghost function TextFrom(f: Frame, o: nat): (s: seq<Byte>)
    requires o <= FRAME
    ensures o + |s| <= FRAME && f[o..o + |s|] == s && IsString(s)
    ensures o + |s| < FRAME ==> f[o + |s|] == 0
    decreases FRAME - o
  {
    if o == FRAME || f[o] == 0 then [] else [f[o]] + TextFrom(f, o + 1)
  }

  /** The name in a frame, as a C string. */
  ghost function NameOf(f: Frame): seq<Byte> {
    TextFrom(f, NAME)
  }

  lemma {:induction false} TextIs(f: Frame, o: nat, s: seq<Byte>)
    requires o + |s| < FRAME && f[o..o + |s|] == s && f[o + |s|] == 0 && IsString(s)
    ensures TextFrom(f, o) == s
    decreases |s|
  {
    if s != [] {
      assert f[o] == f[o..o + |s|][0] == s[0];
      assert f[o + 1..o + |s|] == f[o..o + |s|][1..] == s[1..];
      TextIs(f, o + 1, s[1..]);
    }
  }

  /** A string is found to be the frame's name exactly when it is the text there up to the first zero. */
  lemma NamedIff(f: Frame, name: seq<Byte>)
    requires |name| <= RENAME_MAX && IsString(name)
    ensures Named(f, name) <==> NameOf(f) == name
  {
    if Named(f, name) {
      TextIs(f, NAME, name);
    }
  }

  /** A frame has only one name. */
  lemma NamedOnce(f: Frame, s: seq<Byte>, t: seq<Byte>)
    requires |s| <= RENAME_MAX && |t| <= RENAME_MAX && IsString(s) && IsString(t) && Named(f, s) && Named(f, t)
    ensures s == t
  {
    NamedIff(f, s);
    NamedIff(f, t);
  }

  /** The search stops at the first frame in use whose text up to the first zero is the name, or finds none. */
  lemma FindIsFirst(d: Dir, name: seq<Byte>, i: nat)
    requires |name| <= RENAME_MAX && IsString(name) && i <= FRAMES
    ensures var r := Find(d, name, i);
            && (r < FRAMES ==> 0x50 <= d[r][0] <= 0x5F && NameOf(d[r]) == name)
            && forall k :: i <= k < r ==> !(0x50 <= d[k][0] <= 0x5F && NameOf(d[k]) == name)
  {
    var r := Find(d, name, i);
    hide Find, Named, NameOf, InUse, Available;
    if r < FRAMES {
      NamedIff(d[r], name);
      HighNibble(d[r]);
    }
    forall k | i <= k < r ensures !(0x50 <= d[k][0] <= 0x5F && NameOf(d[k]) == name) {
      NamedIff(d[k], name);
      HighNibble(d[k]);
    }
  }

  /** The states of frames in use and of free ones. */
  lemma HighNibble(f: Frame)
    ensures InUse(f) <==> 0x50 <= f[0] <= 0x5F
    ensures Available(f) <==> 0xA0 <= f[0] <= 0xAF
  {
  }

  /** The checksum byte is the XOR of the others. */
  function Sealed(f: Frame): Frame {
    f[FRAME - 1 := Xor(f[..FRAME - 1])]
  }

  /** A frame whose checksum was just written XORs to zero. */
  lemma SealedXorsToZero(f: Frame)
    ensures Xor(Sealed(f)) == 0
  {
  }

  function Linked(f: Frame, lo: Byte, hi: Byte): Frame {
    f[8 := lo][9 := hi]
  }

  /** A string and its final zero written at the name. */
  function Titled(f: Frame, name: seq<Byte>): Frame
    requires |name| <= NAME_MAX
  {
    f[..NAME] + name + [0] + f[NAME + |name| + 1..]
  }

  /** 0x20 * nblk, as a byte. */
  function SizeByte(nblk: nat): Byte {
    ((0x20 * nblk) % 256) as Byte
  }

  /** The first frame of a new file, before its link. */
  function First(f: Frame, nblk: nat, name: seq<Byte>): Frame
    requires |name| <= NAME_MAX
  {
    Titled(f[0 := 0x51][4 := 0][5 := SizeByte(nblk)][6 := 0][7 := 0], name)
  }

  /** Every other frame of it, before its link. */
  function Next(last: bool): Frame {
    seq(FRAME, k => if k != 0 then 0 else if last then 0x53 else 0x52)
  }

  // ----- searching -----

  /** The first frame from i on that is in use under that name, or FRAMES. */
  function Find(d: Dir, name: seq<Byte>, i: nat): (r: nat)
    requires |name| <= RENAME_MAX && i <= FRAMES
    ensures i <= r <= FRAMES
    ensures r < FRAMES ==> InUse(d[r]) && Named(d[r], name)
    ensures forall k :: i <= k < r ==> !(InUse(d[k]) && Named(d[k], name))
    decreases FRAMES - i
  {
    if i == FRAMES || (InUse(d[i]) && Named(d[i], name)) then i else Find(d, name, i + 1)
  }

  function FindAvailable(d: Dir, i: nat): (r: nat)
    requires i <= FRAMES
    ensures i <= r <= FRAMES
    ensures r < FRAMES ==> Available(d[r])
    ensures forall k :: i <= k < r ==> !Available(d[k])
    decreases FRAMES - i
  {
    if i == FRAMES || Available(d[i]) then i else FindAvailable(d, i + 1)
  }

  // ----- creating -----

  /** The last frame that creating nblk blocks from frame f writes: the code stops at the last frame without
      reporting it. */
  function LastFrame(f: nat, nblk: nat): nat {
    if nblk <= 1 then f else if f + nblk - 1 < FRAMES then f + nblk - 1 else FRAMES - 1
  }

  /** Frame f + m of the new file once it is complete. */
  function NewFrame(d: Dir, f: nat, nblk: nat, name: seq<Byte>, m: nat): Frame
    requires |name| <= NAME_MAX && f + m < FRAMES
  {
    var g := if m == 0 then First(d[f], nblk, name) else Next(m + 1 == nblk);
    Sealed(if f + m == LastFrame(f, nblk) then Linked(g, 0xFF, 0xFF) else Linked(g, (f + m) as Byte, 0))
  }

  ghost function Created(d: Dir, f: nat, nblk: nat, name: seq<Byte>): (r: Dir)
    requires |name| <= NAME_MAX && f < FRAMES
  {
    seq(FRAMES, k requires 0 <= k < FRAMES => CreatedFrame(d, f, nblk, name, k))
  }

  ghost function CreatedFrame(d: Dir, f: nat, nblk: nat, name: seq<Byte>, k: nat): Frame
    requires |name| <= NAME_MAX && f < FRAMES && k < FRAMES
  {
    if f <= k <= LastFrame(f, nblk) then NewFrame(d, f, nblk, name, k - f) else d[k]
  }

  /** The frames a reader follows from frame k: the link is the number of the next frame less one. */
  function Follow(d: Dir, k: nat, fuel: nat): (r: seq<nat>)
    requires k < FRAMES
    ensures forall n :: n in r ==> n < FRAMES
    decreases fuel
  {
    var lo, hi := d[k][8], d[k][9];
    if fuel == 0 || (lo == 0xFF && hi == 0xFF) || hi != 0 || lo as nat + 1 >= FRAMES then [k]
    else [k] + Follow(d, lo as nat + 1, fuel - 1)
  }

  function Upto(i: nat, j: nat): (r: seq<nat>)
    requires i <= j
    ensures |r| == j - i + 1 && forall k :: 0 <= k < |r| ==> r[k] == i + k
    decreases j - i
  {
    if i == j then [i] else [i] + Upto(i + 1, j)
  }

  /** Every frame the creation writes XORs to zero. */
  lemma CreatedXors(d: Dir, f: nat, nblk: nat, name: seq<Byte>, k: nat)
    requires |name| <= NAME_MAX && f <= k <= LastFrame(f, nblk) && f < FRAMES
    ensures k < FRAMES && Xor(Created(d, f, nblk, name)[k]) == 0
  {
  }

  /** Bytes of a written frame that its link and checksum do not touch. */
  lemma NewFrameBytes(d: Dir, f: nat, nblk: nat, name: seq<Byte>, m: nat, o: nat)
    requires |name| <= NAME_MAX && f + m < FRAMES && o < FRAME - 1 && o != 8 && o != 9
    ensures NewFrame(d, f, nblk, name, m)[o] == (if m == 0 then First(d[f], nblk, name) else Next(m + 1 == nblk))[o]
  {
  }

  lemma FollowNext(d: Dir, k: nat, fuel: nat)
    requires k + 1 < FRAMES && fuel > 0 && d[k][8] == k as Byte && d[k][9] == 0
    ensures Follow(d, k, fuel) == [k] + Follow(d, k + 1, fuel - 1)
  {
  }

  lemma FollowLast(d: Dir, k: nat, fuel: nat)
    requires k < FRAMES && d[k][8] == 0xFF && d[k][9] == 0xFF
    ensures Follow(d, k, fuel) == [k]
  {
  }

  lemma CreatedLink(d: Dir, f: nat, nblk: nat, name: seq<Byte>, k: nat)
    requires |name| <= NAME_MAX && f <= k <= LastFrame(f, nblk) && f < FRAMES
    ensures k < FRAMES
    ensures var g := Created(d, f, nblk, name)[k];
            if k == LastFrame(f, nblk) then g[8] == 0xFF && g[9] == 0xFF else g[8] == k as Byte && g[9] == 0
  {
  }

  /** Following the links of a new file from any of its frames visits the frames up to the last one. */
  lemma {:induction false} CreatedChain(d: Dir, f: nat, nblk: nat, name: seq<Byte>, k: nat, fuel: nat)
    requires |name| <= NAME_MAX && 1 <= f <= k <= LastFrame(f, nblk) && f < FRAMES && LastFrame(f, nblk) - k <= fuel
    ensures k < FRAMES && Follow(Created(d, f, nblk, name), k, fuel) == Upto(k, LastFrame(f, nblk))
    decreases fuel
  {
    hide Created, Follow;
    CreatedLink(d, f, nblk, name, k);
    if k < LastFrame(f, nblk) {
      FollowNext(Created(d, f, nblk, name), k, fuel);
      CreatedChain(d, f, nblk, name, k + 1, fuel - 1);
    } else {
      FollowLast(Created(d, f, nblk, name), k, fuel);
    }
  }

  lemma TitledNamed(g: Frame, name: seq<Byte>)
    requires |name| <= NAME_MAX
    ensures Named(Titled(g, name), name)
    ensures forall o :: 0 <= o < NAME ==> Titled(g, name)[o] == g[o]
  {
  }

  lemma CreatedFirst(d: Dir, f: nat, nblk: nat, name: seq<Byte>)
    requires |name| <= NAME_MAX && 1 <= f < FRAMES
    ensures var g := Created(d, f, nblk, name)[f];
            && g[0] == 0x51 && g[4] == 0 && g[5] == SizeByte(nblk) && g[6] == 0 && g[7] == 0
            && InUse(g) && Named(g, name)
            && forall o :: 1 <= o < 4 || NAME + |name| < o < FRAME - 1 ==> g[o] == d[f][o]
  {
    hide SizeByte, Sealed;
    var g := d[f][0 := 0x51][4 := 0][5 := SizeByte(nblk)][6 := 0][7 := 0];
    TitledNamed(g, name);
    var c := Created(d, f, nblk, name);
    assert c[f] == NewFrame(d, f, nblk, name, 0);
    forall o: nat | o < FRAME - 1 && o != 8 && o != 9 ensures c[f][o] == First(d[f], nblk, name)[o] {
      NewFrameBytes(d, f, nblk, name, 0, o);
    }
    hide Created, NewFrame;
    assert c[f][NAME..NAME + |name|] == First(d[f], nblk, name)[NAME..NAME + |name|];
    assert (0x51 as Byte) & 0xF0 == 0x50;
  }

  lemma CreatedOthers(d: Dir, f: nat, nblk: nat, name: seq<Byte>)
    requires |name| <= NAME_MAX && 1 <= f < FRAMES
    ensures var c := Created(d, f, nblk, name);
            && (forall k :: f < k <= LastFrame(f, nblk) ==>
                  && c[k][0] == (if k + 1 - f == nblk then 0x53 else 0x52)
                  && forall o :: 1 <= o < FRAME - 1 && o != 8 && o != 9 ==> c[k][o] == 0)
            && forall k :: 0 <= k < f || LastFrame(f, nblk) < k < FRAMES ==> c[k] == d[k]
  {
    hide Sealed, First, NewFrame;
    var c := Created(d, f, nblk, name);
    forall k, o: nat | f < k <= LastFrame(f, nblk) && o < FRAME - 1 && o != 8 && o != 9
      ensures c[k][o] == Next(k - f + 1 == nblk)[o]
    {
      assert c[k] == NewFrame(d, f, nblk, name, k - f);
      NewFrameBytes(d, f, nblk, name, k - f, o);
    }
  }

  /** The frames of a new file: a first one with the name and the size, whose other bytes stay, then middle ones and
      a last one, whose other bytes are zero. Frames outside it stay. */
  lemma CreatedStates(d: Dir, f: nat, nblk: nat, name: seq<Byte>)
    requires |name| <= NAME_MAX && 1 <= f < FRAMES
    ensures var c := Created(d, f, nblk, name);
            && c[f][0] == 0x51 && c[f][4] == 0 && c[f][5] == SizeByte(nblk) && c[f][6] == 0 && c[f][7] == 0
            && InUse(c[f]) && Named(c[f], name)
            && (forall o :: 1 <= o < 4 || NAME + |name| < o < FRAME - 1 ==> c[f][o] == d[f][o])
            && (forall k :: f < k <= LastFrame(f, nblk) ==>
                  && c[k][0] == (if k + 1 - f == nblk then 0x53 else 0x52)
                  && forall o :: 1 <= o < FRAME - 1 && o != 8 && o != 9 ==> c[k][o] == 0)
            && forall k :: 0 <= k < f || LastFrame(f, nblk) < k < FRAMES ==> c[k] == d[k]
  {
    hide Created, SizeByte, InUse, Named;
    CreatedFirst(d, f, nblk, name);
    CreatedOthers(d, f, nblk, name);
  }

  /** Opening the name of a new file finds its first frame, if no file had that name. */
  lemma CreatedIsFound(d: Dir, f: nat, nblk: nat, name: seq<Byte>)
    requires |name| <= NAME_MAX && 1 <= f < FRAMES && Find(d, name, 1) == FRAMES
    ensures Find(Created(d, f, nblk, name), name, 1) == f
  {
    CreatedStates(d, f, nblk, name);
    FindSame(d, Created(d, f, nblk, name), name, 1, f);
  }

  lemma {:induction false} FindSame(d: Dir, c: Dir, name: seq<Byte>, i: nat, f: nat)
    requires |name| <= RENAME_MAX && i <= f < FRAMES
    requires forall k :: i <= k < f ==> c[k] == d[k] && !(InUse(d[k]) && Named(d[k], name))
    requires InUse(c[f]) && Named(c[f], name)
    ensures Find(c, name, i) == f
    decreases f - i
  {
  }

  /** The new file has the blocks asked for, and closes with a last frame, exactly when it fits. */
  lemma CreatedCompleteIffFits(d: Dir, f: nat, nblk: nat, name: seq<Byte>)
    requires |name| <= NAME_MAX && 1 <= f < FRAMES && nblk >= 1
    ensures |Follow(Created(d, f, nblk, name), f, FRAMES)| == nblk <==> f + nblk <= FRAMES
    ensures nblk > 1 ==> (Created(d, f, nblk, name)[LastFrame(f, nblk)][0] == 0x53 <==> f + nblk <= FRAMES)
  {
    CreatedChain(d, f, nblk, name, f, FRAMES);
    CreatedStates(d, f, nblk, name);
  }

  /** The file size a first frame declares: bytes 4 to 7, lowest first. */
  function DeclaredSize(f: Frame): nat {
    f[4] as nat + 0x100 * f[5] as nat + 0x1_0000 * f[6] as nat + 0x100_0000 * f[7] as nat
  }

  /** Only three bits of the count reach the byte. */
  lemma SizeByteValue(nblk: nat)
    ensures SizeByte(nblk) as nat == 0x20 * nblk % 256
  {
    var r := nblk % 8;
    EightByte(r);
    assert 0x20 * nblk % 256 == 0x20 * r;
  }

  lemma EightByte(r: nat)
    requires r < 8
    ensures (0x20 * r as Byte) as nat == 0x20 * r
  {
    assert r == 0 || r == 1 || r == 2 || r == 3 || r == 4 || r == 5 || r == 6 || r == 7;
  }

  lemma SizeOf(f: Frame, v: Byte)
    requires f[4] == 0 && f[5] == v && f[6] == 0 && f[7] == 0
    ensures DeclaredSize(f) == 0x100 * v as nat
  {
  }

  lemma SizeWraps(nblk: nat)
    ensures 0x20 * nblk % 256 == 0x20 * nblk <==> nblk < 8
  {
  }

  /** The new file declares the size of its blocks, of 0x2000 bytes each, exactly when they are fewer than eight: the
      code writes one byte of the size. */
  lemma DeclaresSizeIff(d: Dir, f: nat, nblk: nat, name: seq<Byte>)
    requires |name| <= NAME_MAX && 1 <= f < FRAMES
    ensures DeclaredSize(Created(d, f, nblk, name)[f]) == 0x2000 * nblk <==> nblk < 8
    ensures DeclaredSize(Created(d, f, nblk, name)[f]) == 0x2000 * nblk % 0x1_0000
  {
    hide Created, DeclaredSize, SizeByte, InUse, Named;
    CreatedStates(d, f, nblk, name);
    SizeOf(Created(d, f, nblk, name)[f], SizeByte(nblk));
    SizeByteValue(nblk);
    SizeWraps(nblk);
  }

  /** For instance, a file of eight blocks has eight frames and declares no size at all. */
  lemma EightBlocksDeclareNothing(d: Dir, name: seq<Byte>)
    requires |name| <= NAME_MAX
    ensures |Follow(Created(d, 1, 8, name), 1, FRAMES)| == 8 && DeclaredSize(Created(d, 1, 8, name)[1]) == 0
  {
    hide Created, DeclaredSize, SizeByte, InUse, Named, Follow;
    CreatedCompleteIffFits(d, 1, 8, name);
    CreatedStates(d, 1, 8, name);
    SizeOf(Created(d, 1, 8, name)[1], SizeByte(8));
    SizeByteValue(8);
  }

  /** A frame that starts a file. */
  predicate StartsFile(f: Frame) {
    f[0] == 0x51
  }

  /** Creating a file leaves the first frame of every other file as it was exactly when none of them is among the
      frames that follow the new file's own first frame. */
  lemma CreateSparesFilesIff(d: Dir, f: nat, nblk: nat, name: seq<Byte>)
    requires |name| <= NAME_MAX && 1 <= f < FRAMES && Available(d[f])
    ensures (forall k :: 0 <= k < FRAMES && StartsFile(d[k]) ==> Created(d, f, nblk, name)[k] == d[k]) <==>
            (forall k :: f < k <= LastFrame(f, nblk) ==> !StartsFile(d[k]))
  {
  }

  /** A chain that meets none of the frames written keeps its links and all its bytes. */
  lemma {:induction false} CreateKeepsChain(d: Dir, f: nat, nblk: nat, name: seq<Byte>, k: nat, fuel: nat)
    requires |name| <= NAME_MAX && f < FRAMES && k < FRAMES
    requires forall n :: n in Follow(d, k, fuel) ==> !(f <= n <= LastFrame(f, nblk))
    ensures Follow(Created(d, f, nblk, name), k, fuel) == Follow(d, k, fuel)
    ensures forall n :: n in Follow(d, k, fuel) ==> Created(d, f, nblk, name)[n] == d[n]
    decreases fuel
  {
    var c := Created(d, f, nblk, name);
    assert k in Follow(d, k, fuel);
    assert c[k] == CreatedFrame(d, f, nblk, name, k) == d[k];
    if |Follow(d, k, fuel)| > 1 {
      var next := d[k][8] as nat + 1;
      assert Follow(d, k, fuel) == [k] + Follow(d, next, fuel - 1);
      var onward := Follow(d, next, fuel - 1);
      assert forall n :: n in onward ==> n in [k] + onward;
      CreateKeepsChain(d, f, nblk, name, next, fuel - 1);
    }
  }

  // ----- renaming -----

  /** A name written over the whole name field, which is cleared up to the checksum. */
  function Retitled(f: Frame, name: seq<Byte>): Frame
    requires |name| <= RENAME_MAX
  {
    f[..NAME] + name + seq(RENAME_MAX - |name|, _ => 0) + f[FRAME - 1..]
  }

  function Renamed(d: Dir, i: nat, name: seq<Byte>): Dir
    requires |name| <= RENAME_MAX && i < FRAMES
  {
    d[i := Sealed(Retitled(d[i], name))]
  }

  /** Renaming re-establishes the zero XOR, keeps the frame's state, size and link, and leaves every other frame. */
  lemma RenamedFrame(d: Dir, i: nat, name: seq<Byte>)
    requires |name| < RENAME_MAX && i < FRAMES && InUse(d[i])
    ensures var r := Renamed(d, i, name);
            && Xor(r[i]) == 0 && InUse(r[i]) && Named(r[i], name)
            && (forall o :: 0 <= o < NAME ==> r[i][o] == d[i][o])
            && (forall o :: NAME + |name| <= o < FRAME - 1 ==> r[i][o] == 0)
            && (forall k :: 0 <= k < FRAMES && k != i ==> r[k] == d[k])
  {
  }

  /** Opening the new name finds the renamed file exactly when no earlier frame has that name: rename does not
      look whether another file has it. */
  lemma RenamedIsFoundIff(d: Dir, was: seq<Byte>, name: seq<Byte>)
    requires |was| <= RENAME_MAX && |name| < RENAME_MAX && Find(d, was, 1) < FRAMES
    ensures var i := Find(d, was, 1);
            Find(Renamed(d, i, name), name, 1) == i <==> Find(d, name, 1) >= i
  {
    var i := Find(d, was, 1);
    RenamedFrame(d, i, name);
    var r := Renamed(d, i, name);
    var j := Find(d, name, 1);
    if j >= i {
      FindSame(d, r, name, 1, i);
    } else {
      FindSame(d, r, name, 1, j);
    }
  }
}
