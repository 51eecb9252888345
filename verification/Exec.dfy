/** What the memory of a program holds when exec (kernel/exec.c) is done with it. */
module ExecSpec {
  import opened Sv39
  import opened PageTable
  import opened VmSpec
  import opened PageCost
  import opened UserMem

  const MAXARG: nat := 32

  /** A loadable segment: its program header, and the bytes of it that can be read from the file. */
  datatype Segment = Segment(vaddr: nat, memsz: nat, filesz: nat, flags: nat, bytes: seq<nat>)

  /** The checks that exec makes on a program header. */
  predicate Sound(s: Segment) {
    s.filesz <= s.memsz && s.vaddr + s.memsz < 0x1_0000_0000_0000_0000 && s.vaddr % PGSIZE == 0
  }

  predicate Loadable(s: Segment) {
    Sound(s) && |s.bytes| == s.filesz
  }

  /** The size of the image once it reaches to the end of `s`. */
  function SizeAfter(sz: nat, s: Segment): (r: nat) {
    if s.vaddr + s.memsz < sz then sz else s.vaddr + s.memsz
  }

  /** The size of the image with all segments. */
  function ImageSize(segs: seq<Segment>): (sz: nat) {
    if segs == [] then 0 else SizeAfter(ImageSize(segs[..|segs| - 1]), segs[|segs| - 1])
  }

  lemma ImageSizeMore(segs: seq<Segment>, s: Segment)
    ensures ImageSize(segs + [s]) == SizeAfter(ImageSize(segs), s)
  {
    assert (segs + [s])[..|segs|] == segs;
  }

  lemma {:induction false} ImageSizeGrows(segs: seq<Segment>, i: nat)
    requires i <= |segs|
    ensures ImageSize(segs[..i]) <= ImageSize(segs)
    decreases |segs| - i
  {
    if i < |segs| {
      assert segs[..i + 1] == segs[..i] + [segs[i]];
      ImageSizeMore(segs[..i], segs[i]);
      ImageSizeGrows(segs, i + 1);
    } else {
      assert segs[..i] == segs;
    }
  }

  /** exec accepts the segments; an image that is empty after the first of them counts as a failure of uvmalloc. */
  predicate LoadsOk(segs: seq<Segment>) {
    && (forall s :: s in segs ==> Loadable(s))
    && (segs != [] ==> segs[0].vaddr + segs[0].memsz > 0)
  }

  /** The permissions of page `v`, apart from R and U: those of the first segment that reached up to it. */
  function PagePerm(segs: seq<Segment>, v: nat): (perm: nat)
    ensures perm == 0 || perm == PTE_W || perm == PTE_X || perm == PTE_W + PTE_X
  {
    if segs == [] then 0 else
      var before, s := segs[..|segs| - 1], segs[|segs| - 1];
      if v < PageCount(ImageSize(before)) then PagePerm(before, v) else Flags2Perm(s.flags)
  }

  /** Every page of the image has the permissions it should. */
  ghost predicate PermsOk(f: map<nat, nat>, segs: seq<Segment>) {
    forall v: nat :: v < PageCount(ImageSize(segs)) ==>
      v in f && Flags(f[v]) == OrV(PTE_R + PTE_U + PagePerm(segs, v))
  }

  lemma PermsNone(f: map<nat, nat>)
    ensures PermsOk(f, [])
  {
  }

  /** Pages were added for one more segment, or none were needed. */
  lemma PermsMore(f: map<nat, nat>, m': Mem, f': map<nat, nat>, segs: seq<Segment>, s: Segment)
    requires PermsOk(f, segs)
    requires forall v: nat :: v < PageCount(ImageSize(segs)) && v in f ==> v in f' && f'[v] == f[v]
    requires Zeroed(m', f', PageCount(ImageSize(segs)), PageCount(ImageSize(segs + [s])),
                    OrV(PTE_R + PTE_U + Flags2Perm(s.flags)))
    ensures PermsOk(f', segs + [s])
  {
    hide Flags, ImageSize, PageCount, Flags2Perm, OrV;
    var all := segs + [s];
    assert all[..|all| - 1] == segs;
    forall v: nat | v < PageCount(ImageSize(all))
      ensures v in f' && Flags(f'[v]) == OrV(PTE_R + PTE_U + PagePerm(all, v))
    {
    }
  }

  lemma PermsStay(f: map<nat, nat>, f': map<nat, nat>, segs: seq<Segment>)
    requires PermsOk(f, segs)
    requires forall v: nat :: v < PageCount(ImageSize(segs)) && v in f ==> v in f' && f'[v] == f[v]
    ensures PermsOk(f', segs)
  {
    hide Flags, ImageSize, PageCount, PagePerm, OrV;
  }

  /** The image has to reach into page `v` for the segment. */
  predicate Reaches(s: Segment, v: nat) {
    v * PGSIZE < s.vaddr + s.memsz
  }

  /** Segment `i` is the first for which it has to, and so the one for which the page was mapped. */
  predicate FirstFor(segs: seq<Segment>, i: nat, v: nat) {
    i < |segs| && Reaches(segs[i], v) && forall j :: 0 <= j < i ==> !Reaches(segs[j], v)
  }

  /** The user may read the page; it may write and execute it as the segment's ELF flags say: bit 1 and bit 0. */
  predicate PageBits(pte: nat, flags: nat) {
    && V(pte) && R(pte) && U(pte)
    && (X(pte) <==> flags % 2 == 1) && (W(pte) <==> flags / 2 % 2 == 1)
  }

  /** Every page of the image may be used as the segment says for which it was mapped. */
  ghost predicate Permitted(f: map<nat, nat>, segs: seq<Segment>) {
    forall v: nat, i: nat :: FirstFor(segs, i, v) ==> v in f && PageBits(f[v], segs[i].flags)
  }

  lemma PagesReached(sz: nat, v: nat)
    ensures v < PageCount(sz) <==> v * PGSIZE < sz
  {
  }

  /** The image is as large as the segment that reaches furthest. */
  lemma {:induction false} ImageSizeIs(segs: seq<Segment>)
    ensures forall s :: s in segs ==> s.vaddr + s.memsz <= ImageSize(segs)
    ensures ImageSize(segs) > 0 ==> exists s :: s in segs && s.vaddr + s.memsz == ImageSize(segs)
    decreases |segs|
  {
    if segs != [] {
      var before, last := segs[..|segs| - 1], segs[|segs| - 1];
      ImageSizeIs(before);
      assert last in segs;
      forall s | s in segs ensures s.vaddr + s.memsz <= ImageSize(segs) {
        assert s in before || s == last;
      }
      if ImageSize(segs) > 0 && ImageSize(segs) != last.vaddr + last.memsz {
        var s :| s in before && s.vaddr + s.memsz == ImageSize(before);
        assert s in segs;
      }
    }
  }

  /** The segment whose permissions a page has is the first that reaches it. */
  lemma {:induction false} PermOfFirst(segs: seq<Segment>, i: nat, v: nat)
    requires FirstFor(segs, i, v)
    ensures v < PageCount(ImageSize(segs)) && PagePerm(segs, v) == Flags2Perm(segs[i].flags)
    decreases |segs|
  {
    hide PageCount, Flags2Perm;
    var before := segs[..|segs| - 1];
    ImageSizeIs(segs);
    ImageSizeIs(before);
    PagesReached(ImageSize(segs), v);
    PagesReached(ImageSize(before), v);
    assert segs[i] in segs;
    if i < |before| {
      assert segs[i] in before;
      PermOfFirst(before, i, v);
    } else {
      SizeWithin(before, v * PGSIZE);
    }
  }

  lemma SizeWithin(segs: seq<Segment>, x: nat)
    requires forall j :: 0 <= j < |segs| ==> segs[j].vaddr + segs[j].memsz <= x
    ensures ImageSize(segs) <= x
  {
    ImageSizeIs(segs);
  }

  /** What flags2perm and uvmalloc make of ELF flags, bit by bit. */
  lemma PermBits(pte: nat, flags: nat)
    requires Flags(pte) == OrV(PTE_R + PTE_U + Flags2Perm(flags))
    ensures PageBits(pte, flags)
  {
    hide Pack, Ppn, W, X, R, U, V, Flags, Interior;
    Packed(pte);
    PackRoundTrip(Ppn(pte), Flags(pte));
    PackR(Ppn(pte), Flags(pte));
    PackW(Ppn(pte), Flags(pte));
    PackX(Ppn(pte), Flags(pte));
  }

  lemma PermsPermit(f: map<nat, nat>, segs: seq<Segment>)
    requires PermsOk(f, segs)
    ensures Permitted(f, segs)
  {
    hide Flags, PagePerm, ImageSize, PageCount, PageBits, OrV, Flags2Perm, Reaches;
    forall v: nat, i: nat | FirstFor(segs, i, v) ensures v in f && PageBits(f[v], segs[i].flags) {
      PermOfFirst(segs, i, v);
      PermBits(f[v], segs[i].flags);
    }
  }

  /** What the stack takes for an item of `n` bytes. */
  function Round16(n: nat): (r: nat) {
    (n + 15) / 16 * 16
  }

  /** What it takes for the argument strings. */
  function StringBytes(argv: seq<seq<nat>>): (n: nat)
    ensures n % 16 == 0
  {
    if argv == [] then 0 else StringBytes(argv[..|argv| - 1]) + Round16(|argv[|argv| - 1]| + 1)
  }

  /** The same with the array of pointers. */
  function StackBytes(argv: seq<seq<nat>>): (n: nat) {
    StringBytes(argv) + Round16(8 * |argv| + 8)
  }

  lemma {:induction false} StringBytesGrow(argv: seq<seq<nat>>, i: nat)
    requires i <= |argv|
    ensures StringBytes(argv[..i]) <= StringBytes(argv)
    decreases |argv| - i
  {
    if i < |argv| {
      StringBytesMore(argv, i);
      StringBytesGrow(argv, i + 1);
    } else {
      assert argv[..i] == argv;
    }
  }

  lemma StringBytesMore(argv: seq<seq<nat>>, i: nat)
    requires i < |argv|
    ensures StringBytes(argv[..i + 1]) == StringBytes(argv[..i]) + Round16(|argv[i]| + 1)
  {
    assert argv[..i + 1][..i] == argv[..i];
  }

  /** Alignment downward from an aligned address. */
  lemma AlignedDown(top: nat, used: nat, n: nat)
    requires top % 16 == 0 && used % 16 == 0 && used + n <= top
    ensures (top - used - n) / 16 * 16 == top - used - Round16(n)
  {
  }

  /** exec succeeds with `free` free pages: the file is sound, the stack page large enough, and memory suffices. */
  predicate ExecFits(free: nat, segs: seq<Segment>, argv: seq<seq<nat>>) {
    LoadsOk(segs) && StackBytes(argv) <= PGSIZE && free >= NewSpace(PageCount(ImageSize(segs)) + 2)
  }

  /** The byte at address `x` of a program: from the last segment that covers it, else zero. */
  function ImageByte(segs: seq<Segment>, x: nat): (b: nat)
    requires forall s :: s in segs ==> Loadable(s)
  {
    if segs == [] then 0 else
      var s := segs[|segs| - 1];
      assert s in segs && Loadable(s);
      if s.vaddr <= x < s.vaddr + s.filesz then s.bytes[x - s.vaddr] else ImageByte(segs[..|segs| - 1], x)
  }

  lemma {:induction false} ImageByteBeyond(segs: seq<Segment>, x: nat)
    requires forall s :: s in segs ==> Loadable(s) && s.vaddr + s.filesz <= x
    ensures ImageByte(segs, x) == 0
    decreases |segs|
  {
    if segs != [] {
      assert segs[|segs| - 1] in segs;
      ImageByteBeyond(segs[..|segs| - 1], x);
    }
  }

  /** The first `n` pages are the user's and hold the program's segments. */
  ghost predicate Program(m: Mem, f: map<nat, nat>, n: nat, segs: seq<Segment>) {
    && UserPages(m, f) && (forall s :: s in segs ==> Loadable(s) && s.vaddr + s.filesz <= n * PGSIZE)
    && (forall v: nat :: v < n ==> Access(f, v))
    && forall x: nat :: x < n * PGSIZE ==> Access(f, x / PGSIZE) && ByteAt(m, f, x) == ImageByte(segs, x)
  }

  lemma ProgramNone(m: Mem, f: map<nat, nat>)
    requires UserPages(m, f)
    ensures Program(m, f, 0, [])
  {
  }

  lemma PageBelow(x: nat, n: nat)
    ensures x < n * PGSIZE <==> x / PGSIZE < n
  {
  }

  /** A program depends on its own entries and pages only. */
  lemma ProgramStays(m: Mem, f: map<nat, nat>, m': Mem, f': map<nat, nat>, n: nat, segs: seq<Segment>)
    requires Program(m, f, n, segs) && UserPages(m', f')
    requires forall v: nat :: v < n ==> v in f' && v in f && f'[v] == f[v]
    requires forall v: nat :: v < n && v in f && Ppn(f[v]) in m ==> Ppn(f[v]) in m' && m'[Ppn(f[v])] == m[Ppn(f[v])]
    ensures Program(m', f', n, segs)
  {
    hide Ppn, U, ImageByte, Loadable;
    forall v: nat | v < n ensures Access(f', v) {
      assert Access(f, v);
    }
    forall x: nat | x < n * PGSIZE ensures Access(f', x / PGSIZE) && ByteAt(m', f', x) == ImageByte(segs, x) {
      PageBelow(x, n);
      assert Access(f, x / PGSIZE);
      assert LeafOk(m, f[x / PGSIZE]);
    }
  }

  lemma UserFlag(pte: nat, xperm: nat)
    requires xperm == 0 || xperm == PTE_W || xperm == PTE_X || xperm == PTE_W + PTE_X
    requires Flags(pte) == OrV(PTE_R + PTE_U + xperm)
    ensures U(pte)
  {
    hide Pack, Ppn, U, Flags;
    Packed(pte);
    PackRoundTrip(Ppn(pte), Flags(pte));
  }

  /** Zeroed pages above the program make it larger. */
  lemma ProgramGrows(m: Mem, f: map<nat, nat>, m': Mem, f': map<nat, nat>, n: nat, n': nat, xperm: nat,
      segs: seq<Segment>)
    requires Program(m, f, n, segs) && UserPages(m', f') && n <= n' && Program(m', f', n, segs)
    requires xperm == 0 || xperm == PTE_W || xperm == PTE_X || xperm == PTE_W + PTE_X
    requires Zeroed(m', f', n, n', OrV(PTE_R + PTE_U + xperm))
    ensures Program(m', f', n', segs)
  {
    hide Ppn, U, ImageByte, Loadable, Flags;
    forall v: nat | v < n' ensures Access(f', v) {
      if v >= n { UserFlag(f'[v], xperm); }
    }
    forall x: nat | x < n' * PGSIZE ensures Access(f', x / PGSIZE) && ByteAt(m', f', x) == ImageByte(segs, x) {
      PageBelow(x, n);
      PageBelow(x, n');
      if x / PGSIZE >= n {
        ImageByteBeyond(segs, x);
        assert LeafOk(m', f'[x / PGSIZE]);
        assert m'[Ppn(f'[x / PGSIZE])] == Filled(0);
      }
    }
    assert n * PGSIZE <= n' * PGSIZE;
  }

  /** One more segment is stored. */
  lemma ProgramLoads(m: Mem, m': Mem, f: map<nat, nat>, n: nat, segs: seq<Segment>, s: Segment)
    requires Program(m, f, n, segs) && Loadable(s) && s.vaddr + s.filesz <= n * PGSIZE
    requires UserPages(m', f) && Stored(m, m', f, s.vaddr, s.bytes, |s.bytes|)
    ensures Program(m', f, n, segs + [s])
  {
    hide Ppn, U, Access, UserPages;
    var all := segs + [s];
    forall x: nat | x < n * PGSIZE ensures Access(f, x / PGSIZE) && ByteAt(m', f, x) == ImageByte(all, x) {
      assert all[..|all| - 1] == segs;
      assert Access(f, x / PGSIZE) && ByteAt(m, f, x) == ImageByte(segs, x);
    }
  }

  /** Bytes stored above the program do not disturb it. */
  lemma ProgramAbove(m: Mem, m': Mem, f: map<nat, nat>, n: nat, segs: seq<Segment>, a: nat, src: seq<nat>, k: nat)
    requires Program(m, f, n, segs) && n * PGSIZE <= a && k <= |src|
    requires UserPages(m', f) && Stored(m, m', f, a, src, k)
    ensures Program(m', f, n, segs)
  {
    hide Ppn, U, Access, UserPages, ImageByte, Loadable;
  }

  lemma AllAccessible(f: map<nat, nat>, n: nat, a: nat, k: nat)
    requires (forall v: nat :: v < n ==> Access(f, v)) && a + k <= n * PGSIZE
    ensures Span(f, a, k)
  {
    hide Access;
    forall x: nat | a <= x < a + k ensures Access(f, x / PGSIZE) {
      PageBelow(x, n);
    }
  }

  /** Storing to the user's pages keeps the account of pages. */
  lemma StoredImage(m0: Mem, m: Mem, m': Mem, sp: Space, n: nat, a: nat, src: seq<nat>, k: nat)
    requires Image(m0, m, sp, n) && WF(m', sp) && Flat(m', sp) == Flat(m, sp) && k <= |src|
    requires UserPages(m, Flat(m, sp)) && UserPages(m', Flat(m, sp)) && Stored(m, m', Flat(m, sp), a, src, k)
    ensures Image(m0, m', sp, n)
  {
    hide WF, Flat, U, Ppn, Flags, ByteAt, UserPages;
    StoredProc(m, m', sp, n, a, src, k);
    var f := Flat(m, sp);
    forall p | p in m0 ensures m'[p] == m0[p] {
      NotUsers(m0, m, sp, n, p);
    }
  }

  lemma NotUsers(m0: Mem, m: Mem, sp: Space, n: nat, p: nat)
    requires Image(m0, m, sp, n) && p in m0
    ensures p in m && !(exists v: nat :: Access(Flat(m, sp), v) && Ppn(Flat(m, sp)[v]) == p)
  {
    hide WF, Flat, U, Ppn, Flags, LeafOk;
    var f := Flat(m, sp);
    assert p in m.Keys;
    forall v: nat | Access(f, v) ensures Ppn(f[v]) != p {
      assert v < n;
      assert Ppn(f[v]) in Leaves(f, 0, n);
    }
  }

  // ---------------------------------------------------------------- the stack

  function Half(y: nat): (s: seq<nat>)
    ensures |s| == 4
  {
    [y % 256, y / 256 % 256, y / 65536 % 256, y / 16777216 % 256]
  }

  /** Eight bytes, least significant first. */
  function Word8(x: nat): (s: seq<nat>)
    ensures |s| == 8
  {
    Half(x % 0x1_0000_0000) + Half(x / 0x1_0000_0000)
  }

  function Words(xs: seq<nat>): (s: seq<nat>)
    ensures |s| == 8 * |xs|
  {
    if xs == [] then [] else Words(xs[..|xs| - 1]) + Word8(xs[|xs| - 1])
  }

  /** The number that eight bytes stand for. */
  function Value8(s: seq<nat>): (x: nat)
    requires |s| == 8
  {
    s[0] + 256 * s[1] + 65536 * s[2] + 16777216 * s[3]
    + 0x1_0000_0000 * (s[4] + 256 * s[5] + 65536 * s[6] + 16777216 * s[7])
  }

  lemma Four(y: nat)
    requires y < 0x1_0000_0000
    ensures y == y % 256 + 256 * (y / 256 % 256) + 65536 * (y / 65536 % 256) + 16777216 * (y / 16777216 % 256)
  {
    assert y / 65536 == y / 256 / 256;
    assert y / 16777216 == y / 65536 / 256;
    assert y / 16777216 < 256;
  }

  /** The i-th pointer reads back from the array. */
  lemma {:induction false} WordAt(xs: seq<nat>, i: nat)
    requires i < |xs| && xs[i] < 0x1_0000_0000_0000_0000
    ensures Value8(Words(xs)[8 * i..8 * i + 8]) == xs[i]
    decreases |xs|
  {
    if i == |xs| - 1 {
      assert Words(xs)[8 * i..8 * i + 8] == Word8(xs[i]);
      Word8Back(xs[i]);
    } else {
      var rest := xs[..|xs| - 1];
      assert Words(xs)[8 * i..8 * i + 8] == Words(rest)[8 * i..8 * i + 8];
      WordAt(rest, i);
    }
  }

  lemma Word8Back(x: nat)
    requires x < 0x1_0000_0000_0000_0000
    ensures Value8(Word8(x)) == x
  {
    Four(x % 0x1_0000_0000);
    Four(x / 0x1_0000_0000);
  }

  /** Where the last item pushed begins. */
  function Lowest(ptrs: seq<nat>, high: nat): (a: nat) {
    if ptrs == [] then high else ptrs[|ptrs| - 1]
  }

  /** `n` bytes at `a` lie right below `top`, but for the alignment to 16 bytes. */
  predicate Stacked(a: nat, n: nat, top: nat) {
    a % 16 == 0 && a + n <= top < a + n + 16
  }

  /** Each string with its NUL lies right below the one before it, the first below `high`. */
  ghost predicate Layout(args: seq<seq<nat>>, ptrs: seq<nat>, high: nat)
    requires |ptrs| == |args|
  {
    forall i :: 0 <= i < |args| ==> Stacked(ptrs[i], |args[i]| + 1, Lowest(ptrs[..i], high))
  }

  lemma LayoutMore(args: seq<seq<nat>>, ptrs: seq<nat>, high: nat, arg: seq<nat>, a: nat)
    requires |ptrs| == |args| && Layout(args, ptrs, high) && Stacked(a, |arg| + 1, Lowest(ptrs, high))
    ensures Layout(args + [arg], ptrs + [a], high)
  {
    hide Stacked, Lowest;
    var args', ptrs' := args + [arg], ptrs + [a];
    forall i | 0 <= i < |args'| ensures Stacked(ptrs'[i], |args'[i]| + 1, Lowest(ptrs'[..i], high)) {
      assert ptrs'[..i] == ptrs[..i];
      assert i == |args| ==> ptrs[..i] == ptrs;
    }
  }

  /** The arguments, each with its NUL, lie where the pointers say, one right below the other from `high` down. */
  ghost predicate Pushed(m: Mem, f: map<nat, nat>, low: nat, high: nat, args: seq<seq<nat>>, ptrs: seq<nat>)
    requires UserPages(m, f)
  {
    && |ptrs| == |args| && Layout(args, ptrs, high)
    && forall i :: 0 <= i < |args| ==>
         && low <= ptrs[i] && ptrs[i] + |args[i]| + 1 <= high && Span(f, ptrs[i], |args[i]| + 1)
         && Bytes(m, f, ptrs[i], |args[i]| + 1) == args[i] + [0]
  }

  lemma PushedNone(m: Mem, f: map<nat, nat>, high: nat)
    requires UserPages(m, f)
    ensures Pushed(m, f, high, high, [], [])
  {
  }

  /** What is stored below does not reach the arguments that are there. */
  lemma PushedBelow(m: Mem, m': Mem, f: map<nat, nat>, low: nat, high: nat, args: seq<seq<nat>>, ptrs: seq<nat>, a: nat,
      src: seq<nat>)
    requires UserPages(m, f) && UserPages(m', f) && Pushed(m, f, low, high, args, ptrs)
    requires a + |src| <= low && Stored(m, m', f, a, src, |src|)
    ensures Pushed(m', f, a, high, args, ptrs)
  {
    hide UserPages, Access, Layout;
    forall i | 0 <= i < |args| ensures Bytes(m', f, ptrs[i], |args[i]| + 1) == args[i] + [0] {
      SameBytes(m, m', f, ptrs[i], |args[i]| + 1, a, src);
    }
  }

  lemma SameBytes(m: Mem, m': Mem, f: map<nat, nat>, b: nat, n: nat, a: nat, src: seq<nat>)
    requires UserPages(m, f) && UserPages(m', f) && Span(f, b, n) && a + |src| <= b && Stored(m, m', f, a, src, |src|)
    ensures Bytes(m', f, b, n) == Bytes(m, f, b, n)
  {
    hide UserPages;
    forall i | 0 <= i < n ensures Bytes(m', f, b, n)[i] == Bytes(m, f, b, n)[i] {
      assert Access(f, (b + i) / PGSIZE);
    }
  }

  lemma PushedOne(m: Mem, m': Mem, f: map<nat, nat>, low: nat, high: nat, args: seq<seq<nat>>, ptrs: seq<nat>, a: nat,
      arg: seq<nat>)
    requires UserPages(m, f) && UserPages(m', f) && Pushed(m, f, low, high, args, ptrs)
    requires a + |arg| + 1 <= low <= high && Stored(m, m', f, a, arg + [0], |arg| + 1) && Span(f, a, |arg| + 1)
    requires Bytes(m', f, a, |arg| + 1) == arg + [0] && Stacked(a, |arg| + 1, Lowest(ptrs, high))
    ensures Pushed(m', f, a, high, args + [arg], ptrs + [a])
  {
    hide UserPages, Access, Stored, Span, Bytes, Layout, Stacked, Lowest;
    PushedBelow(m, m', f, low, high, args, ptrs, a, arg + [0]);
    var args', ptrs' := args + [arg], ptrs + [a];
    LayoutMore(args, ptrs, high, arg, a);
    forall i | 0 <= i < |args'|
      ensures a <= ptrs'[i] && ptrs'[i] + |args'[i]| + 1 <= high && Span(f, ptrs'[i], |args'[i]| + 1)
      ensures Bytes(m', f, ptrs'[i], |args'[i]| + 1) == args'[i] + [0]
    {
      if i < |args| {
        assert args'[i] == args[i] && ptrs'[i] == ptrs[i];
      }
    }
  }
}

/** exec (kernel/exec.c), over the page-table operations of kernel/vm.c. */
module Exec {
  import opened Sv39
  import opened PageTable
  import opened VmSpec
  import opened PageCost
  import opened UserMem
  import opened ExecSpec
  import V = Vm

  /** loadseg: the bytes of a segment go to its pages, which are all there, so that it does not panic. */
  method LoadSeg(vm: V.Vm, ghost sp: Space, root: nat, va: nat, bytes: seq<nat>) returns (panic: bool)
    requires vm.Partition() && WF(vm.mem, sp) && root == sp.root && UserPages(vm.mem, Flat(vm.mem, sp))
    requires va % PGSIZE == 0 && Span(Flat(vm.mem, sp), va, |bytes|)
    modifies vm
    ensures !panic && vm.Partition() && WF(vm.mem, sp) && Flat(vm.mem, sp) == old(Flat(vm.mem, sp))
    ensures UserPages(vm.mem, Flat(vm.mem, sp)) && Stored(old(vm.mem), vm.mem, Flat(vm.mem, sp), va, bytes, |bytes|)
    ensures vm.free == old(vm.free)
  {
    hide Ppn, Flat, WF, Parted, Access, UserPages, Stored, LeafOk;
    ghost var f, m0 := Flat(vm.mem, sp), vm.mem;
    StoredNone(vm.mem, f, va, bytes);
    panic := false;
    var i := 0;
    while i < |bytes|
      invariant i % PGSIZE == 0 || i == |bytes|
      invariant !panic && vm.Partition() && WF(vm.mem, sp) && Flat(vm.mem, sp) == f && UserPages(vm.mem, f)
      invariant i <= |bytes| && Stored(m0, vm.mem, f, va, bytes, i) && vm.free == old(vm.free)
    {
      var pa := vm.WalkAddr(sp, root, va + i);
      if pa == 0 {
        return true;
      }
      var n := if |bytes| - i < PGSIZE then |bytes| - i else PGSIZE;
      Aligned(va, i);
      StoredMore(m0, vm.mem, f, va, bytes, i, n, (va + i) / PGSIZE);
      PatchShape(vm.mem, f, (va + i) / PGSIZE);
      ghost var m1 := vm.mem;
      vm.mem := Patch(vm.mem, pa, 0, bytes[i..i + n]);
      PatchFrame(m1, vm.mem, sp, pa);
      i := i + n;
    }
  }

  lemma Aligned(va: nat, i: nat)
    requires va % PGSIZE == 0 && i % PGSIZE == 0
    ensures (va + i) % PGSIZE == 0
  {
  }

  /** The loop of exec over the program headers. */
  method LoadSegments(vm: V.Vm, ghost m0: Mem, ghost sp0: Space, root: nat, segs: seq<Segment>)
    returns (ok: bool, sz: nat, ghost sp: Space)
    requires vm.Partition() && root == sp0.root && Image(m0, vm.mem, sp0, 0)
    requires forall s :: s in segs ==> |s.bytes| <= s.filesz
    modifies vm
    ensures vm.Partition() && sp.root == root && Image(m0, vm.mem, sp, PageCount(sz))
    ensures ok ==> WF(vm.mem, sp) && sz == ImageSize(segs)
    ensures ok ==> Program(vm.mem, Flat(vm.mem, sp), PageCount(sz), segs) && PermsOk(Flat(vm.mem, sp), segs)
    ensures ok ==> Permitted(Flat(vm.mem, sp), segs)
    ensures ok <==> LoadsOk(segs) && |old(vm.free)| >= Need(Places(sp0), 0, PageCount(ImageSize(segs)))
    ensures ok ==> GotPages(sp0, sp, 0, PageCount(sz), |old(vm.free)|, |vm.free|)
  {
    hide Image, Parted, PageCount, Program, WF, Flat, PermsOk, Permitted, Need, GotPages, Loadable, SizeAfter;
    sz, sp := 0, sp0;
    NoPages();
    ImageUser(m0, vm.mem, sp, 0, vm.managed, vm.free);
    ProgramNone(vm.mem, Flat(vm.mem, sp));
    PermsNone(Flat(vm.mem, sp));
    GotNone(sp0, 0, |vm.free|);
    var i := 0;
    while i < |segs|
      invariant i <= |segs| && vm.Partition() && sp.root == root && Image(m0, vm.mem, sp, PageCount(sz))
      invariant WF(vm.mem, sp) && Program(vm.mem, Flat(vm.mem, sp), PageCount(sz), segs[..i])
      invariant PermsOk(Flat(vm.mem, sp), segs[..i]) && sz == ImageSize(segs[..i])
      invariant GotPages(sp0, sp, 0, PageCount(sz), |old(vm.free)|, |vm.free|)
      invariant forall j :: 0 <= j < i ==> Loadable(segs[j])
      invariant i > 0 ==> sz > 0 && segs[0].vaddr + segs[0].memsz > 0
    {
      ghost var sp1, free1, n := sp, |vm.free|, PageCount(sz);
      assert segs[i] in segs;
      assert segs[..i + 1] == segs[..i] + [segs[i]];
      NextSize(segs, i);
      if !Sound(segs[i]) {
        NotSound(segs[i]);
        return false, sz, sp;
      }
      ok, sz, sp := LoadOne(vm, m0, sp, root, sz, segs[..i], segs[i]);
      if !ok {
        NotLoaded(sp0, sp1, segs, i, |old(vm.free)|, free1);
        return;
      }
      GotPagesMore(sp0, sp1, sp, 0, n, PageCount(sz), |old(vm.free)|, free1, |vm.free|);
      i := i + 1;
    }
    assert segs[..i] == segs;
    PermsPermit(Flat(vm.mem, sp), segs);
    GotEnough(sp0, sp, 0, PageCount(sz), |old(vm.free)|, |vm.free|);
    ok := true;
  }

  lemma NoPages()
    ensures PageCount(0) == 0
  {
  }

  lemma NotSound(s: Segment)
    requires !Sound(s)
    ensures !Loadable(s)
  {
  }

  lemma NextSize(segs: seq<Segment>, i: nat)
    requires i < |segs|
    ensures ImageSize(segs[..i + 1]) == SizeAfter(ImageSize(segs[..i]), segs[i])
    ensures PageCount(ImageSize(segs[..i])) <= PageCount(ImageSize(segs[..i + 1])) <= PageCount(ImageSize(segs))
    ensures i == 0 ==> ImageSize(segs[..i + 1]) == segs[0].vaddr + segs[0].memsz
    ensures ImageSize(segs[..i]) > 0 ==> ImageSize(segs[..i + 1]) > 0
  {
    hide PageCount, ImageSize;
    assert segs[..i + 1] == segs[..i] + [segs[i]];
    ImageSizeMore(segs[..i], segs[i]);
    ImageSizeGrows(segs, i + 1);
    PageCountGrows(ImageSize(segs[..i]), ImageSize(segs[..i + 1]));
    PageCountGrows(ImageSize(segs[..i + 1]), ImageSize(segs));
    if i == 0 {
      NoSize(segs[..i]);
    }
  }

  lemma NoSize(segs: seq<Segment>)
    requires segs == []
    ensures ImageSize(segs) == 0
  {
  }

  lemma PageCountGrows(a: nat, b: nat)
    requires a <= b
    ensures PageCount(a) <= PageCount(b)
  {
  }

  /** One segment fails: the file is unsound or memory does not suffice for the whole. */
  lemma NotLoaded(sp0: Space, sp1: Space, segs: seq<Segment>, i: nat, before: nat, now: nat)
    requires i < |segs| && GotPages(sp0, sp1, 0, PageCount(ImageSize(segs[..i])), before, now)
    requires i > 0 ==> ImageSize(segs[..i]) > 0
    requires !(Loadable(segs[i]) && ImageSize(segs[..i + 1]) != 0 &&
               now >= Need(Places(sp1), PageCount(ImageSize(segs[..i])), PageCount(ImageSize(segs[..i + 1]))))
    ensures !(LoadsOk(segs) && before >= Need(Places(sp0), 0, PageCount(ImageSize(segs))))
  {
    hide Need, GotPages, PageCount, Loadable, ImageSize;
    NextSize(segs, i);
    if Loadable(segs[i]) && ImageSize(segs[..i + 1]) != 0 {
      TooMuch(sp0, sp1, 0, PageCount(ImageSize(segs[..i])), PageCount(ImageSize(segs[..i + 1])), before, now,
        PageCount(ImageSize(segs)));
    } else {
      assert segs[i] in segs;
    }
  }

  /** One segment: memory up to its end, then its bytes; it fails when memory or the file runs out. */
  method LoadOne(vm: V.Vm, ghost m0: Mem, ghost sp: Space, root: nat, sz: nat, ghost done: seq<Segment>, s: Segment)
    returns (ok: bool, sz': nat, ghost sp': Space)
    requires vm.Partition() && root == sp.root && Image(m0, vm.mem, sp, PageCount(sz))
    requires Sound(s) && |s.bytes| <= s.filesz && sz == ImageSize(done)
    requires WF(vm.mem, sp) && Program(vm.mem, Flat(vm.mem, sp), PageCount(sz), done) && PermsOk(Flat(vm.mem, sp), done)
    modifies vm
    ensures vm.Partition() && sp'.root == root && Image(m0, vm.mem, sp', PageCount(sz'))
    ensures ok ==> WF(vm.mem, sp') && sz' == ImageSize(done + [s])
    ensures ok ==>
              && Program(vm.mem, Flat(vm.mem, sp'), PageCount(sz'), done + [s])
              && PermsOk(Flat(vm.mem, sp'), done + [s])
    ensures ok <==>
              && Loadable(s) && ImageSize(done + [s]) != 0
              && |old(vm.free)| >= Need(Places(sp), PageCount(sz), PageCount(ImageSize(done + [s])))
    ensures ok ==> GotPages(sp, sp', PageCount(sz), PageCount(sz'), |old(vm.free)|, |vm.free|)
  {
    hide Image, Parted, PgRoundUp, Program, WF, Flat, Without, Zeroed, UserPages, Stored, Span, PagesStay, PermsOk,
      Need, GotPages, ImageSize;
    ghost var m1, n := vm.mem, PageCount(sz);
    ImageSizeMore(done, s);
    NeedNone(Places(sp), n);
    sz', sp' := vm.GrowImage(m0, sp, root, sz, s.vaddr + s.memsz, Flags2Perm(s.flags));
    if sz' == 0 {
      return false, sz, sp';
    }
    ghost var n' := PageCount(sz');
    RoundUpLess(sz, sz');
    GrownProgram(m0, m1, sp, n, vm.mem, sp', n', Flags2Perm(s.flags), done, vm.managed, vm.free);
    RoundUpCovers(sz', s);
    ghost var m2, f := vm.mem, Flat(vm.mem, sp');
    ProgramSpan(vm.mem, f, n', done, s.vaddr, |s.bytes|);
    GrownPerms(m0, m1, sp, m2, sp', done, s);
    var panic := LoadSeg(vm, sp', root, s.vaddr, s.bytes);
    StoredImage(m0, m2, vm.mem, sp', n', s.vaddr, s.bytes, |s.bytes|);
    if |s.bytes| < s.filesz {
      return false, sz', sp';
    }
    ProgramLoads(m2, vm.mem, f, n', done, s);
    GotEnough(sp, sp', n, n', |old(vm.free)|, |vm.free|);
    ok := true;
  }

  /** The new pages have the permissions of their segment. */
  lemma GrownPerms(m0: Mem, m: Mem, sp: Space, m': Mem, sp': Space, done: seq<Segment>, s: Segment)
    requires WF(m, sp) && WF(m', sp') && PermsOk(Flat(m, sp), done)
    requires var n, n' := PageCount(ImageSize(done)), PageCount(ImageSize(done + [s]));
             || (m' == m && sp' == sp && n' == n)
             || (Without(Flat(m', sp'), n, n') == Flat(m, sp) && n <= n'
                 && Zeroed(m', Flat(m', sp'), n, n', OrV(PTE_R + PTE_U + Flags2Perm(s.flags))))
    ensures PermsOk(Flat(m', sp'), done + [s])
  {
    hide WF, Flat, PermsOk, ImageSize, PageCount, Flags, Flags2Perm, OrV;
    var n, n', f, f' := PageCount(ImageSize(done)), PageCount(ImageSize(done + [s])), Flat(m, sp), Flat(m', sp');
    if n <= n' && Without(f', n, n') == f {
      forall v: nat | v < n && v in f ensures v in f' && f'[v] == f[v] {
        assert v in Without(f', n, n');
      }
    }
    PermsMore(f, m', f', done, s);
  }

  lemma ProgramSpan(m: Mem, f: map<nat, nat>, n: nat, segs: seq<Segment>, a: nat, k: nat)
    requires Program(m, f, n, segs) && a + k <= n * PGSIZE
    ensures Span(f, a, k) && UserPages(m, f)
  {
    AllAccessible(f, n, a, k);
  }

  lemma RoundUpCovers(sz: nat, s: Segment)
    requires s.vaddr + s.memsz <= sz
    ensures s.vaddr + s.memsz <= PgRoundUp(sz) / PGSIZE * PGSIZE
  {
  }

  lemma ImageUser(m0: Mem, m: Mem, sp: Space, n: nat, managed: set<nat>, free: seq<nat>)
    requires Image(m0, m, sp, n) && Parted(managed, free, m.Keys)
    ensures WF(m, sp) && UserPages(m, Flat(m, sp))
  {
    hide WF, Flat, UserMap, HighPages, Leaves, Parted;
    NullUnused(managed, free, m);
    ProcUserPages(m, sp, n);
  }

  /** uvmalloc on behalf of exec keeps what was loaded. */
  lemma GrownProgram(m0: Mem, m: Mem, sp: Space, n: nat, m': Mem, sp': Space, n': nat, xperm: nat, segs: seq<Segment>,
      managed: set<nat>, free: seq<nat>)
    requires Image(m0, m, sp, n) && Image(m0, m', sp', n') && Program(m, Flat(m, sp), n, segs)
    requires PagesStay(m, m', sp) && Parted(managed, free, m'.Keys)
    requires (m' == m && sp' == sp && n' == n) ||
             (Without(Flat(m', sp'), n, n') == Flat(m, sp) && n <= n'
              && Zeroed(m', Flat(m', sp'), n, n', OrV(PTE_R + PTE_U + xperm)))
    requires xperm == 0 || xperm == PTE_W || xperm == PTE_X || xperm == PTE_W + PTE_X
    ensures WF(m', sp') && Program(m', Flat(m', sp'), n', segs)
  {
    if !(m' == m && sp' == sp && n' == n) {
      hide WF, Flat, Program, Parted, Zeroed, HighPages, Ppn, Flags;
      var f, f' := Flat(m, sp), Flat(m', sp');
      ImageUser(m0, m', sp', n', managed, free);
      KeptBelow(m, f, f', n, n', m', sp);
      ProgramStays(m, f, m', f', n, segs);
      ProgramGrows(m, f, m', f', n, n', xperm, segs);
    }
  }

  lemma KeptBelow(m: Mem, f: map<nat, nat>, f': map<nat, nat>, n: nat, n': nat, m': Mem, sp: Space)
    requires WF(m, sp) && UserMap(m, f, n) && Without(f', n, n') == f && PagesStay(m, m', sp)
    ensures forall v: nat :: v < n ==> v in f' && v in f && f'[v] == f[v]
    ensures forall v: nat :: v < n && v in f && Ppn(f[v]) in m ==> Ppn(f[v]) in m' && m'[Ppn(f[v])] == m[Ppn(f[v])]
  {
    hide Down, Up, Ppn, Flags;
    forall v: nat | v < n ensures v in f' && v in f && f'[v] == f[v] {
      assert v in Without(f', n, n');
    }
    forall v: nat | v < n ensures Ppn(f[v]) in m' && m'[Ppn(f[v])] == m[Ppn(f[v])] {
      assert LeafOk(m, f[v]);
    }
  }

  /** The page right below `sz` is the stack. */
  ghost predicate StackPage(f: map<nat, nat>, sz: nat) {
    && sz % PGSIZE == 0 && sz >= 2 * PGSIZE && Access(f, sz / PGSIZE - 1)
    && Flags(f[sz / PGSIZE - 1]) == OrV(PTE_R + PTE_U + PTE_W)
  }

  lemma InStack(f: map<nat, nat>, sz: nat, a: nat, k: nat)
    requires StackPage(f, sz) && sz - PGSIZE <= a && a + k <= sz
    ensures Span(f, a, k)
  {
    hide Access, Flags;
    forall x: nat | a <= x < a + k ensures Access(f, x / PGSIZE) {
      assert x / PGSIZE == sz / PGSIZE - 1;
    }
  }

  /** Push one item: 16-byte aligned, below what is there, unless the stack is too small. */
  method PushItem(vm: V.Vm, ghost m0: Mem, ghost sp: Space, root: nat, sz: nat, usp: nat, item: seq<nat>,
      ghost lo: nat, ghost segs: seq<Segment>)
    returns (ok: bool, usp': nat)
    requires vm.Partition() && root == sp.root && Image(m0, vm.mem, sp, sz / PGSIZE) && WF(vm.mem, sp)
    requires StackPage(Flat(vm.mem, sp), sz) && sz - PGSIZE <= usp <= sz && 0 < |item| <= PGSIZE
    requires Program(vm.mem, Flat(vm.mem, sp), lo, segs) && lo * PGSIZE <= sz - PGSIZE
    modifies vm
    ensures vm.Partition() && WF(vm.mem, sp) && Image(m0, vm.mem, sp, sz / PGSIZE)
    ensures Flat(vm.mem, sp) == old(Flat(vm.mem, sp))
    ensures Program(vm.mem, Flat(vm.mem, sp), lo, segs)
    ensures UserPages(old(vm.mem), Flat(vm.mem, sp)) && UserPages(vm.mem, Flat(vm.mem, sp))
    ensures ok <==> (usp - |item|) / 16 * 16 >= sz - PGSIZE
    ensures ok ==> usp' == (usp - |item|) / 16 * 16 && Span(Flat(vm.mem, sp), usp', |item|)
    ensures ok ==> Stored(old(vm.mem), vm.mem, Flat(vm.mem, sp), usp', item, |item|)
    ensures ok ==> Bytes(vm.mem, Flat(vm.mem, sp), usp', |item|) == item
  {
    hide Image, Parted, Program, WF, Flat, UserPages, Stored, Span, Access;
    ImageUser(m0, vm.mem, sp, sz / PGSIZE, vm.managed, vm.free);
    usp' := usp - |item|;
    usp' := usp' - usp' % 16;
    if usp' < sz - PGSIZE {
      return false, usp';
    }
    ghost var m1, f := vm.mem, Flat(vm.mem, sp);
    InStack(f, sz, usp', |item|);
    var r;
    ghost var k;
    r, k := vm.CopyOut(sp, root, usp', item);
    StoredImage(m0, m1, vm.mem, sp, sz / PGSIZE, usp', item, k);
    ProgramAbove(m1, vm.mem, f, lo, segs, usp', item, k);
    ReadBack(m1, vm.mem, f, usp', item);
    ok := r == 0;
  }

  /** The argument strings and the array of pointers to them, as exec pushes them. */
  method PushArgs(vm: V.Vm, ghost m0: Mem, ghost sp: Space, root: nat, sz: nat, argv: seq<seq<nat>>, ghost lo: nat,
      ghost segs: seq<Segment>)
    returns (ok: bool, usp: nat, ptrs: seq<nat>)
    requires vm.Partition() && root == sp.root && Image(m0, vm.mem, sp, sz / PGSIZE) && WF(vm.mem, sp)
    requires StackPage(Flat(vm.mem, sp), sz) && |argv| < MAXARG && forall i :: 0 <= i < |argv| ==> |argv[i]| < PGSIZE
    requires Program(vm.mem, Flat(vm.mem, sp), lo, segs) && lo * PGSIZE <= sz - PGSIZE
    modifies vm
    ensures vm.Partition() && WF(vm.mem, sp) && Image(m0, vm.mem, sp, sz / PGSIZE)
    ensures Flat(vm.mem, sp) == old(Flat(vm.mem, sp))
    ensures UserPages(vm.mem, Flat(vm.mem, sp)) && Program(vm.mem, Flat(vm.mem, sp), lo, segs)
    ensures ok ==> Pushed(vm.mem, Flat(vm.mem, sp), usp, sz, argv, ptrs) && sz - PGSIZE <= usp
    ensures ok ==> Stacked(usp, 8 * |argv| + 8, Lowest(ptrs, sz))
    ensures ok ==> Span(Flat(vm.mem, sp), usp, 8 * |argv| + 8)
                   && Bytes(vm.mem, Flat(vm.mem, sp), usp, 8 * |argv| + 8) == Words(ptrs + [0])
    ensures ok <==> StackBytes(argv) <= PGSIZE
    ensures ok ==> usp == sz - StackBytes(argv)
  {
    hide Image, Parted, Program, WF, Flat, UserPages, Stored, Span, Access, Pushed, Words, StackPage, StringBytes,
      Round16;
    ghost var f := Flat(vm.mem, sp);
    StackShape(f, sz);
    ok, usp, ptrs := PushStrings(vm, m0, sp, root, sz, argv, lo, segs);
    if ok {
      ghost var m1, u1 := vm.mem, usp;
      PointersFit(sz, argv);
      ok, usp := PushItem(vm, m0, sp, root, sz, usp, Words(ptrs + [0]), lo, segs);
      AlignedBelow(u1, 8 * |argv| + 8);
      if ok {
        PushedBelow(m1, vm.mem, f, u1, sz, argv, ptrs, usp, Words(ptrs + [0]));
      }
    }
  }

  /** The loop that pushes the strings. */
  method PushStrings(vm: V.Vm, ghost m0: Mem, ghost sp: Space, root: nat, sz: nat, argv: seq<seq<nat>>, ghost lo: nat,
      ghost segs: seq<Segment>)
    returns (ok: bool, usp: nat, ptrs: seq<nat>)
    requires vm.Partition() && root == sp.root && Image(m0, vm.mem, sp, sz / PGSIZE) && WF(vm.mem, sp)
    requires StackPage(Flat(vm.mem, sp), sz) && forall i :: 0 <= i < |argv| ==> |argv[i]| < PGSIZE
    requires Program(vm.mem, Flat(vm.mem, sp), lo, segs) && lo * PGSIZE <= sz - PGSIZE
    modifies vm
    ensures vm.Partition() && WF(vm.mem, sp) && Image(m0, vm.mem, sp, sz / PGSIZE)
    ensures Flat(vm.mem, sp) == old(Flat(vm.mem, sp))
    ensures UserPages(vm.mem, Flat(vm.mem, sp)) && Program(vm.mem, Flat(vm.mem, sp), lo, segs)
    ensures ok <==> StringBytes(argv) <= PGSIZE
    ensures ok ==> Pushed(vm.mem, Flat(vm.mem, sp), usp, sz, argv, ptrs) && usp == sz - StringBytes(argv)
    ensures ok ==> |ptrs| == |argv| && usp == Lowest(ptrs, sz)
  {
    hide Image, Parted, Program, WF, Flat, UserPages, Stored, Span, Access, Pushed, StackPage, StringBytes;
    ghost var f := Flat(vm.mem, sp);
    usp, ptrs := sz, [];
    StackShape(f, sz);
    ImageUser(m0, vm.mem, sp, sz / PGSIZE, vm.managed, vm.free);
    PushedNone(vm.mem, f, sz);
    NoStrings(argv);
    var argc := 0;
    while argc < |argv|
      invariant argc <= |argv| && vm.Partition() && Image(m0, vm.mem, sp, sz / PGSIZE) && WF(vm.mem, sp)
      invariant Flat(vm.mem, sp) == f && UserPages(vm.mem, f) && Program(vm.mem, f, lo, segs)
      invariant sz - PGSIZE <= usp <= sz && Pushed(vm.mem, f, usp, sz, argv[..argc], ptrs)
      invariant usp == sz - StringBytes(argv[..argc]) && usp == Lowest(ptrs, sz)
    {
      ghost var m1, u1 := vm.mem, usp;
      NextString(sz, argv, argc);
      ok, usp := PushItem(vm, m0, sp, root, sz, usp, argv[argc] + [0], lo, segs);
      if !ok {
        return;
      }
      AlignedBelow(u1, |argv[argc]| + 1);
      PushedOne(m1, vm.mem, f, u1, sz, argv[..argc], ptrs, usp, argv[argc]);
      assert argv[..argc + 1] == argv[..argc] + [argv[argc]];
      ptrs := ptrs + [usp];
      argc := argc + 1;
    }
    assert argv[..argc] == argv;
    PushedLength(vm.mem, f, usp, sz, argv, ptrs);
    ok := true;
  }

  lemma AlignedBelow(top: nat, n: nat)
    requires n <= top
    ensures Stacked((top - n) / 16 * 16, n, top)
  {
  }

  lemma NoStrings(argv: seq<seq<nat>>)
    ensures StringBytes(argv[..0]) == 0
  {
  }

  /** Where the next string goes, and that one below the stack page means too many bytes in all. */
  lemma NextString(sz: nat, argv: seq<seq<nat>>, i: nat)
    requires i < |argv| && sz % PGSIZE == 0 && StringBytes(argv[..i]) + |argv[i]| + 1 <= sz
    ensures (sz - StringBytes(argv[..i]) - |argv[i] + [0]|) / 16 * 16 == sz - StringBytes(argv[..i + 1])
    ensures StringBytes(argv[..i + 1]) <= StringBytes(argv)
    ensures StringBytes(argv[..i + 1]) >= StringBytes(argv[..i]) + |argv[i]| + 1
  {
    hide StringBytes;
    StringBytesMore(argv, i);
    StringBytesGrow(argv, i + 1);
    Sixteenths(sz);
    AlignedDown(sz, StringBytes(argv[..i]), |argv[i]| + 1);
    RoundsUp(|argv[i]| + 1);
  }

  lemma PointersFit(sz: nat, argv: seq<seq<nat>>)
    requires sz % PGSIZE == 0 && StringBytes(argv) + 8 * |argv| + 8 <= sz
    ensures (sz - StringBytes(argv) - (8 * |argv| + 8)) / 16 * 16 == sz - StackBytes(argv)
    ensures StackBytes(argv) >= StringBytes(argv) + 8 * |argv| + 8
  {
    hide StringBytes;
    Sixteenths(sz);
    AlignedDown(sz, StringBytes(argv), 8 * |argv| + 8);
    RoundsUp(8 * |argv| + 8);
  }

  lemma Sixteenths(sz: nat)
    requires sz % PGSIZE == 0
    ensures sz % 16 == 0
  {
  }

  lemma RoundsUp(n: nat)
    ensures n <= Round16(n) < n + 16 && Round16(n) % 16 == 0
  {
  }

  lemma StackShape(f: map<nat, nat>, sz: nat)
    requires StackPage(f, sz)
    ensures sz >= 2 * PGSIZE && sz % PGSIZE == 0
  {
  }

  lemma PushedLength(m: Mem, f: map<nat, nat>, low: nat, high: nat, args: seq<seq<nat>>, ptrs: seq<nat>)
    requires UserPages(m, f) && Pushed(m, f, low, high, args, ptrs)
    ensures |ptrs| == |args|
  {
  }

  /** What exec hands to the program: its segments below the guard page, and its arguments on the stack. */
  ghost predicate Ready(m: Mem, sp: Space, sz: nat, segs: seq<Segment>, argv: seq<seq<nat>>, usp: nat, ptrs: seq<nat>)
    requires WF(m, sp)
  {
    var f := Flat(m, sp);
    && sz == (PageCount(ImageSize(segs)) + 2) * PGSIZE && Program(m, f, sz / PGSIZE - 2, segs) && Permitted(f, segs)
    && sz / PGSIZE - 2 in f && !U(f[sz / PGSIZE - 2])
    && StackPage(f, sz) && Pushed(m, f, usp, sz, argv, ptrs) && sz - PGSIZE <= usp
    && Stacked(usp, 8 * |argv| + 8, Lowest(ptrs, sz))
    && Span(f, usp, 8 * |argv| + 8) && Bytes(m, f, usp, 8 * |argv| + 8) == Words(ptrs + [0])
  }

  /** Two more pages, the lower of which loses its user bit: the stack and its guard. */
  method MakeStack(vm: V.Vm, ghost m0: Mem, ghost sp: Space, root: nat, sz: nat, ghost segs: seq<Segment>)
    returns (ok: bool, sz': nat, ghost sp': Space)
    requires vm.Partition() && root == sp.root && sz % PGSIZE == 0 && Image(m0, vm.mem, sp, sz / PGSIZE)
    requires WF(vm.mem, sp) && Program(vm.mem, Flat(vm.mem, sp), sz / PGSIZE, segs)
    requires PermsOk(Flat(vm.mem, sp), segs) && sz / PGSIZE == PageCount(ImageSize(segs))
    modifies vm
    ensures vm.Partition() && sp'.root == root && sz' % PGSIZE == 0 && Image(m0, vm.mem, sp', sz' / PGSIZE)
    ensures ok <==> |old(vm.free)| >= Need(Places(sp), sz / PGSIZE, sz / PGSIZE + 2)
    ensures ok ==> WF(vm.mem, sp') && sz' == sz + 2 * PGSIZE && Program(vm.mem, Flat(vm.mem, sp'), sz / PGSIZE, segs)
    ensures ok ==>
              && StackPage(Flat(vm.mem, sp'), sz') && sz / PGSIZE in Flat(vm.mem, sp')
              && !U(Flat(vm.mem, sp')[sz / PGSIZE]) && PermsOk(Flat(vm.mem, sp'), segs)
  {
    hide Parted, Program, WF, Flat, Without, Zeroed, PagesStay, UserMap, Apart, HighPages, Leaves, U, ClearU, R,
      Flags, Ppn, Need, GotPages, PermsOk, Access, PageCount, ImageSize;
    ghost var m1, lo, n := vm.mem, sz / PGSIZE, sz / PGSIZE + 2;
    RoundUpTwice(sz);
    ProgramEnds(m1, Flat(m1, sp), lo, segs);
    sz', sp' := vm.GrowImage(m0, sp, root, sz, sz + 2 * PGSIZE, PTE_W);
    if sz' == 0 {
      return false, sz, sp';
    }
    ghost var m2 := vm.mem;
    GrownProgram(m0, m1, sp, lo, m2, sp', n, PTE_W, segs, vm.managed, vm.free);
    GuardPage(m2, sp', lo, n);
    var panic := vm.UvmClear(sp', root, sz' - 2 * PGSIZE, lo);
    ImageGuarded(m0, m2, sp', n, vm.mem, lo);
    ClearUKeeps(Flat(m2, sp')[lo]);
    ImageUser(m0, vm.mem, sp', n, vm.managed, vm.free);
    GuardedProgram(m2, vm.mem, sp', lo, n, segs);
    StackPerms(m1, sp, m2, sp', vm.mem, lo, n, segs);
    StackStays(m2, Flat(m2, sp'), Flat(vm.mem, sp'), lo, sz', segs);
    ok := true;
  }

  /** Pages above the program leave its permissions alone. */
  lemma StackPerms(m1: Mem, sp: Space, m2: Mem, sp': Space, m3: Mem, lo: nat, n: nat, segs: seq<Segment>)
    requires WF(m1, sp) && WF(m2, sp') && WF(m3, sp') && PermsOk(Flat(m1, sp), segs) && lo <= n
    requires lo == PageCount(ImageSize(segs)) && Without(Flat(m2, sp'), lo, n) == Flat(m1, sp)
    requires lo in Flat(m2, sp') && Flat(m3, sp') == Flat(m2, sp')[lo := ClearU(Flat(m2, sp')[lo])]
    ensures PermsOk(Flat(m3, sp'), segs)
  {
    hide WF, Flat, PermsOk, ImageSize, PageCount, ClearU;
    var f, f' := Flat(m1, sp), Flat(m3, sp');
    forall v: nat | v < lo && v in f ensures v in f' && f'[v] == f[v] {
      assert v in Without(Flat(m2, sp'), lo, n);
    }
    PermsStay(f, f', segs);
  }

  lemma ProgramEnds(m: Mem, f: map<nat, nat>, n: nat, segs: seq<Segment>)
    requires Program(m, f, n, segs)
    ensures forall s :: s in segs ==> s.vaddr + s.filesz <= n * PGSIZE
  {
    hide UserPages, Access, ImageByte;
  }

  /** The page above the guard page is the stack. */
  lemma StackStays(m: Mem, f: map<nat, nat>, f': map<nat, nat>, lo: nat, sz: nat, segs: seq<Segment>)
    requires sz % PGSIZE == 0 && sz / PGSIZE == lo + 2 && Program(m, f, lo + 2, segs)
    requires Zeroed(m, f, lo, lo + 2, OrV(PTE_R + PTE_U + PTE_W)) && lo in f && f' == f[lo := ClearU(f[lo])]
    ensures StackPage(f', sz)
  {
    hide UserPages, Flags, U, ClearU;
    assert Access(f, lo + 1);
  }

  /** Clearing the user bit of the page above the program leaves the program and the stack alone. */
  lemma GuardedProgram(m: Mem, m': Mem, sp: Space, lo: nat, n: nat, segs: seq<Segment>)
    requires WF(m, sp) && WF(m', sp) && n == lo + 2 && Program(m, Flat(m, sp), n, segs) && UserPages(m', Flat(m', sp))
    requires lo in Flat(m, sp) && Flat(m', sp) == Flat(m, sp)[lo := ClearU(Flat(m, sp)[lo])]
    requires UserMap(m, Flat(m, sp), n) && m'.Keys == m.Keys && forall p :: p in m && p !in sp.pos ==> m'[p] == m[p]
    requires forall s :: s in segs ==> s.vaddr + s.filesz <= lo * PGSIZE
    ensures Program(m', Flat(m', sp), lo, segs)
  {
    hide Down, Up, Flat, Ppn, Flags, U, ClearU, ImageByte, Loadable;
    var f, f' := Flat(m, sp), Flat(m', sp);
    ProgramLess(m, f, n, lo, segs);
    forall v: nat | v < lo ensures Ppn(f[v]) in m' && m'[Ppn(f[v])] == m[Ppn(f[v])] {
      assert LeafOk(m, f[v]);
    }
    ProgramStays(m, f, m', f', lo, segs);
  }

  lemma ProgramLess(m: Mem, f: map<nat, nat>, n: nat, lo: nat, segs: seq<Segment>)
    requires Program(m, f, n, segs) && lo <= n && forall s :: s in segs ==> s.vaddr + s.filesz <= lo * PGSIZE
    ensures Program(m, f, lo, segs)
  {
    hide UserPages, Access, ImageByte, Loadable;
  }

  /** Pages that go away are not the program's. */
  lemma ReadyStays(m: Mem, m': Mem, sp: Space, sz: nat, segs: seq<Segment>, argv: seq<seq<nat>>, usp: nat,
      ptrs: seq<nat>)
    requires WF(m, sp) && WF(m', sp) && Flat(m', sp) == Flat(m, sp) && Ready(m, sp, sz, segs, argv, usp, ptrs)
    requires UserPages(m', Flat(m', sp)) && forall p :: p in m' ==> p in m && m'[p] == m[p]
    ensures Ready(m', sp, sz, segs, argv, usp, ptrs)
  {
    hide WF, Flat, U, Access, UserPages, Words, ImageByte, Loadable, Permitted, Layout, StackPage, ImageSize, PageCount;
    var f := Flat(m, sp);
    BytesKept(m, m', f, usp, 8 * |argv| + 8);
    forall i | 0 <= i < |argv| ensures Bytes(m', f, ptrs[i], |argv[i]| + 1) == argv[i] + [0] {
      BytesKept(m, m', f, ptrs[i], |argv[i]| + 1);
    }
    forall x: nat | x < (sz / PGSIZE - 2) * PGSIZE ensures ByteAt(m', f, x) == ImageByte(segs, x) {
      ByteKept(m, m', f, x);
    }
  }

  lemma ByteKept(m: Mem, m': Mem, f: map<nat, nat>, x: nat)
    requires UserPages(m, f) && UserPages(m', f) && Access(f, x / PGSIZE)
    requires forall p :: p in m' ==> p in m && m'[p] == m[p]
    ensures ByteAt(m', f, x) == ByteAt(m, f, x)
  {
    hide Ppn, U;
    assert LeafOk(m', f[x / PGSIZE]);
  }

  lemma BytesKept(m: Mem, m': Mem, f: map<nat, nat>, a: nat, n: nat)
    requires UserPages(m, f) && UserPages(m', f) && Span(f, a, n) && forall p :: p in m' ==> p in m && m'[p] == m[p]
    ensures Bytes(m', f, a, n) == Bytes(m, f, a, n)
  {
    hide UserPages;
    forall i | 0 <= i < n ensures Bytes(m', f, a, n)[i] == Bytes(m, f, a, n)[i] {
      assert Access(f, (a + i) / PGSIZE);
      ByteKept(m, m', f, a + i);
    }
  }

  /**
   exec: build the new image beside the old one, then exchange them. Whatever fails, every
   page is exactly as before. On success the old image is gone, the rest of memory is
   untouched, the pages below the guard page hold the segments of the file, later ones over
   earlier ones and zeroes elsewhere, and the stack holds the arguments and the pointers to
   them. The caller, sys_exec, passes fewer than MAXARG arguments of at most a page each.
   */
  method Exec(vm: V.Vm, ghost od: Space, oldRoot: nat, oldsz: nat, segs: seq<Segment>, argv: seq<seq<nat>>,
      trampoline: nat, trapframe: nat)
    returns (r: int, root: nat, sz: nat, usp: nat, ptrs: seq<nat>, ghost sp: Space)
    requires vm.Partition() && oldRoot == od.root && ProcSpace(vm.mem, od, PgRoundUp(oldsz) / PGSIZE)
    requires forall s :: s in segs ==> |s.bytes| <= s.filesz
    requires |argv| < MAXARG && forall i :: 0 <= i < |argv| ==> |argv[i]| < PGSIZE
    modifies vm
    ensures vm.Partition() && (r == -1 || r == |argv|)
    ensures r != -1 <==> ExecFits(|old(vm.free)|, segs, argv)
    ensures r == -1 ==> vm.mem == old(vm.mem)
    ensures r != -1 ==>
              && sp.root == root && PgRoundUp(sz) == sz
              && Image(old(vm.mem - od.pos.Keys - Leaves(Flat(vm.mem, od), 0, PgRoundUp(oldsz) / PGSIZE)),
                       vm.mem, sp, sz / PGSIZE)
    ensures r != -1 ==> WF(vm.mem, sp) && Ready(vm.mem, sp, sz, segs, argv, usp, ptrs)
  {
    hide WF, UserMap, Flat, Parted, Leaves, Apart, HighPages, U, Program, Permitted, StackPage, Pushed, Words,
      PgRoundUp, LoadsOk, StackBytes, ImageSize, PageCount, NewSpace;
    ghost var m0 := vm.mem;
    r, usp, ptrs := -1, 0, [];
    root, sz, sp := BuildImage(vm, segs, trampoline, trapframe);
    if root == 0 {
      return;
    }
    var ok;
    ok, usp, ptrs := PushArgs(vm, m0, sp, root, sz, argv, sz / PGSIZE - 2, segs);
    RoundUpTwice(sz);
    if !ok {
      vm.Discard(m0, sp, root, sz);
      return;
    }
    Replace(vm, m0, od, oldRoot, oldsz, sp, sz, segs, argv, usp, ptrs);
    r := |argv|;
  }

  /** The part of exec that takes pages: the new image up to its stack, or memory as it was. */
  method BuildImage(vm: V.Vm, segs: seq<Segment>, trampoline: nat, trapframe: nat)
    returns (root: nat, sz: nat, ghost sp: Space)
    requires vm.Partition() && forall s :: s in segs ==> |s.bytes| <= s.filesz
    modifies vm
    ensures vm.Partition()
    ensures root == 0 ==> vm.mem == old(vm.mem)
    ensures root != 0 <==> LoadsOk(segs) && |old(vm.free)| >= NewSpace(PageCount(ImageSize(segs)) + 2)
    ensures root != 0 ==>
              && sp.root == root && WF(vm.mem, sp) && sz == (PageCount(ImageSize(segs)) + 2) * PGSIZE
              && Image(old(vm.mem), vm.mem, sp, sz / PGSIZE)
    ensures root != 0 ==>
              var f := Flat(vm.mem, sp);
              && Program(vm.mem, f, sz / PGSIZE - 2, segs) && Permitted(f, segs) && StackPage(f, sz)
              && sz / PGSIZE - 2 in f && !U(f[sz / PGSIZE - 2])
  {
    hide WF, UserMap, Flat, Parted, Leaves, Apart, HighPages, U, ProcFlat, Program, StackPage, PgRoundUp, Permitted,
      LoadsOk, ImageSize, Need, NewSpace, FirstPlaces, PageCount;
    ghost var m0 := vm.mem;
    FreeCount(vm.managed, vm.free, vm.mem);
    NewSpaceNeed(PageCount(ImageSize(segs)) + 2, |vm.free|);
    sz := 0;
    root, sp := vm.ProcPagetable(trampoline, trapframe);
    if root != 0 {
      ImageNone(m0, vm.mem, sp);
      root, sz, sp := FillImage(vm, m0, sp, root, segs);
    }
  }

  /** The same for a new address space, which is given up when it fails. */
  method FillImage(vm: V.Vm, ghost m0: Mem, ghost sp0: Space, root: nat, segs: seq<Segment>)
    returns (root': nat, sz: nat, ghost sp: Space)
    requires vm.Partition() && root == sp0.root && root != 0 && Image(m0, vm.mem, sp0, 0)
    requires forall s :: s in segs ==> |s.bytes| <= s.filesz
    modifies vm
    ensures vm.Partition() && (root' == 0 || root' == root)
    ensures root' == 0 ==> vm.mem == m0
    ensures root' != 0 <==>
              LoadsOk(segs) && |old(vm.free)| >= Need(Places(sp0), 0, PageCount(ImageSize(segs)) + 2)
    ensures root' != 0 ==>
              && sp.root == root && WF(vm.mem, sp) && sz == (PageCount(ImageSize(segs)) + 2) * PGSIZE
              && Image(m0, vm.mem, sp, sz / PGSIZE)
    ensures root' != 0 ==>
              var f := Flat(vm.mem, sp);
              && Program(vm.mem, f, sz / PGSIZE - 2, segs) && Permitted(f, segs) && StackPage(f, sz)
              && sz / PGSIZE - 2 in f && !U(f[sz / PGSIZE - 2])
  {
    hide WF, Flat, Parted, U, Program, StackPage, PgRoundUp, PermsOk, Permitted, LoadsOk, ImageSize, Need, GotPages,
      PageCount, Image, Places;
    ghost var free0, n := |vm.free|, PageCount(ImageSize(segs));
    root' := root;
    var ok;
    ok, sz, sp := LoadSegments(vm, m0, sp0, root, segs);
    RoundedUp(sz);
    if !ok {
      NeedGrows(Places(sp0), n, n + 2);
      vm.Discard(m0, sp, root, sz);
      return 0, sz, sp;
    }
    LoadedNeed(sp0, sp, n, free0, |vm.free|);
    sz := PgRoundUp(sz);
    RoundUpTwice(sz);
    ok, sz, sp := MakeStack(vm, m0, sp, root, sz, segs);
    if !ok {
      RoundUpTwice(sz);
      vm.Discard(m0, sp, root, sz);
      return 0, sz, sp;
    }
    PermsPermit(Flat(vm.mem, sp), segs);
  }

  lemma NeedGrows(pl: set<Path>, n: nat, n': nat)
    requires n <= n'
    ensures Need(pl, 0, n) <= Need(pl, 0, n')
  {
    hide Need;
    NeedJoin(pl, 0, n, n');
  }

  /** Two more pages fit exactly when they fit from the start. */
  lemma LoadedNeed(sp0: Space, sp: Space, n: nat, before: nat, now: nat)
    requires GotPages(sp0, sp, 0, n, before, now)
    ensures now >= Need(Places(sp), n, n + 2) <==> before >= Need(Places(sp0), 0, n + 2)
  {
    hide Need, Tables;
    NeedJoin(Places(sp0), 0, n, n + 2);
  }

  lemma RoundedUp(sz: nat)
    ensures PgRoundUp(sz) % PGSIZE == 0 && PgRoundUp(sz) / PGSIZE == PageCount(sz)
    ensures PgRoundUp(sz) == PageCount(sz) * PGSIZE
  {
  }

  /** The new image takes the place of the old one. */
  method Replace(vm: V.Vm, ghost m0: Mem, ghost od: Space, oldRoot: nat, oldsz: nat, ghost sp: Space, sz: nat,
      ghost segs: seq<Segment>, ghost argv: seq<seq<nat>>, ghost usp: nat, ghost ptrs: seq<nat>)
    requires vm.Partition() && oldRoot == od.root && ProcSpace(m0, od, PgRoundUp(oldsz) / PGSIZE)
    requires Image(m0, vm.mem, sp, sz / PGSIZE) && WF(vm.mem, sp) && Ready(vm.mem, sp, sz, segs, argv, usp, ptrs)
    modifies vm
    ensures vm.Partition()
    ensures Image(m0 - od.pos.Keys - Leaves(Flat(m0, od), 0, PgRoundUp(oldsz) / PGSIZE), vm.mem, sp, sz / PGSIZE)
    ensures WF(vm.mem, sp) && Ready(vm.mem, sp, sz, segs, argv, usp, ptrs)
  {
    hide WF, UserMap, Flat, Parted, Leaves, Apart, HighPages, Ready, PgRoundUp;
    ghost var n0, n := PgRoundUp(oldsz) / PGSIZE, sz / PGSIZE;
    OldImageStays(m0, od, n0, vm.mem, sp, Leaves(Flat(vm.mem, sp), 0, n));
    OwnedInUse(m0, od, n0);
    ghost var m2 := vm.mem;
    var panic := vm.ProcFreePagetable(od, oldRoot, oldsz);
    Exchanged(m0, od, Leaves(Flat(m0, od), 0, n0), m2, sp, Leaves(Flat(m2, sp), 0, n));
    ghost var rest := m0 - od.pos.Keys - Leaves(Flat(m0, od), 0, n0);
    ExchangedImage(m0, m2, vm.mem, sp, n, rest);
    ImageUser(rest, vm.mem, sp, n, vm.managed, vm.free);
    ReadyStays(m2, vm.mem, sp, sz, segs, argv, usp, ptrs);
  }

  /** Page `v` is accessible without the W bit and begins with the byte `b`. */
  ghost predicate HoldsReadOnly(m: Mem, f: map<nat, nat>, v: nat, b: nat) {
    UserPages(m, f) && v in f && !W(f[v]) && Span(f, v * PGSIZE, 1) && Bytes(m, f, v * PGSIZE, 1) == [b]
  }

  /**
   A page that exec loads without the W bit, as it does for a segment that is not writable,
   is written by copyout all the same.
   */
  method WriteReadOnly(vm: V.Vm, ghost od: Space, oldRoot: nat, oldsz: nat, segs: seq<Segment>, argv: seq<seq<nat>>,
      trampoline: nat, trapframe: nat, v: nat, b: nat, ghost i: nat)
    returns (r: int, ghost sp: Space)
    requires vm.Partition() && oldRoot == od.root && ProcSpace(vm.mem, od, PgRoundUp(oldsz) / PGSIZE)
    requires forall s :: s in segs ==> |s.bytes| <= s.filesz
    requires |argv| < MAXARG && forall i :: 0 <= i < |argv| ==> |argv[i]| < PGSIZE
    requires ExecFits(|vm.free|, segs, argv) && FirstFor(segs, i, v) && segs[i].flags / 2 % 2 == 0
    modifies vm
    ensures r == 0 && WF(vm.mem, sp) && HoldsReadOnly(vm.mem, Flat(vm.mem, sp), v, b)
  {
    hide WF, Flat, Parted, Apart, Leaves, UserMap, HighPages, UserPages, Stored, Span, ExecFits, ImageSize, PageCount,
      W, Flags, U, Permitted, FirstFor, Program, StackPage;
    var root, sz, usp, ptrs;
    r, root, sz, usp, ptrs, sp := Exec(vm, od, oldRoot, oldsz, segs, argv, trampoline, trapframe);
    ReadOnlyPage(vm.mem, sp, sz, segs, argv, usp, ptrs, v, i);
    ghost var k;
    r, k := vm.CopyToProc(sp, root, sz, v * PGSIZE, [b]);
  }

  lemma ReadOnlyPage(m: Mem, sp: Space, sz: nat, segs: seq<Segment>, argv: seq<seq<nat>>, usp: nat, ptrs: seq<nat>,
      v: nat, i: nat)
    requires WF(m, sp) && Ready(m, sp, sz, segs, argv, usp, ptrs)
    requires FirstFor(segs, i, v) && segs[i].flags / 2 % 2 == 0
    ensures Access(Flat(m, sp), v) && !W(Flat(m, sp)[v]) && Span(Flat(m, sp), v * PGSIZE, 1)
  {
    hide WF, Flat, UserPages, W, U, X, R, Flags, Pushed, Words, Bytes, StackPage, Program, Reaches;
    var f := Flat(m, sp);
    assert PageBits(f[v], segs[i].flags);
    forall x: nat | v * PGSIZE <= x < v * PGSIZE + 1 ensures Access(f, x / PGSIZE) {
      assert x / PGSIZE == v;
    }
  }
}
