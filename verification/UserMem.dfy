/** User memory as a byte array addressed through a flat map (kernel/vm.c, the copy functions). */
module UserMem {
  import opened Sv39
  import opened PageTable
  import opened VmSpec

  /** Page number `v` is mapped for user access; walkaddr looks at V and U, not at R, W or X. */
  ghost predicate Access(f: map<nat, nat>, v: nat) {
    v in f && U(f[v])
  }

  /** Pages with user access are plain pages, each mapped once. */
  ghost predicate UserPages(m: Mem, f: map<nat, nat>) {
    && (forall v: nat :: Access(f, v) ==> LeafOk(m, f[v]) && Ppn(f[v]) != 0 && v < PAGES)
    && (forall v: nat, w: nat :: Access(f, v) && Access(f, w) && v != w ==> Ppn(f[v]) != Ppn(f[w]))
  }

  ghost function ByteAt(m: Mem, f: map<nat, nat>, a: nat): (b: nat)
    requires UserPages(m, f) && Access(f, a / PGSIZE)
  {
    assert LeafOk(m, f[a / PGSIZE]);
    m[Ppn(f[a / PGSIZE])].bytes[a % PGSIZE]
  }

  /** All of a..a+n is accessible. */
  ghost predicate Span(f: map<nat, nat>, a: nat, n: nat) {
    forall x: nat :: a <= x < a + n ==> Access(f, x / PGSIZE)
  }

  /** The first `k` of the bytes `src` have been stored from address `a` on, nothing else changed. */
  ghost predicate Stored(m: Mem, m': Mem, f: map<nat, nat>, a: nat, src: seq<nat>, k: nat)
    requires UserPages(m, f) && UserPages(m', f) && k <= |src|
  {
    && m'.Keys == m.Keys
    && (forall p :: p in m && !(exists v: nat :: Access(f, v) && Ppn(f[v]) == p) ==> m'[p] == m[p])
    && forall x: nat :: Access(f, x / PGSIZE) ==>
         ByteAt(m', f, x) == if a <= x < a + k then src[x - a] else ByteAt(m, f, x)
  }

  /** memmove of `chunk` into page `p` at offset `off`. */
  function Patch(m: Mem, p: nat, off: nat, chunk: seq<nat>): (r: Mem)
    requires p in m && m[p].Data? && off + |chunk| <= |m[p].bytes|
  {
    var b := m[p].bytes;
    m[p := Data(b[..off] + chunk + b[off + |chunk|..])]
  }

  lemma PatchPages(m: Mem, f: map<nat, nat>, v: nat, off: nat, chunk: seq<nat>)
    requires UserPages(m, f) && Access(f, v) && off + |chunk| <= PGSIZE
    ensures LeafOk(m, f[v]) && UserPages(Patch(m, Ppn(f[v]), off, chunk), f)
  {
    hide Ppn, U;
    assert LeafOk(m, f[v]);
    var m' := Patch(m, Ppn(f[v]), off, chunk);
    forall w: nat | Access(f, w) ensures LeafOk(m', f[w]) {
      assert LeafOk(m, f[w]);
    }
  }

  lemma PatchByte(m: Mem, f: map<nat, nat>, v: nat, off: nat, chunk: seq<nat>, x: nat)
    requires UserPages(m, f) && Access(f, v) && off + |chunk| <= PGSIZE && Access(f, x / PGSIZE)
    requires LeafOk(m, f[v]) && UserPages(Patch(m, Ppn(f[v]), off, chunk), f)
    ensures ByteAt(Patch(m, Ppn(f[v]), off, chunk), f, x) ==
              if x / PGSIZE == v && off <= x % PGSIZE < off + |chunk| then chunk[x % PGSIZE - off] else ByteAt(m, f, x)
  {
    hide Ppn, U;
    assert LeafOk(m, f[x / PGSIZE]);
  }

  /** One more chunk, from the byte after the first `k` to the end of its page at most. */
  lemma StoredMore(m0: Mem, m: Mem, f: map<nat, nat>, a: nat, src: seq<nat>, k: nat, n: nat, v: nat)
    requires UserPages(m0, f) && UserPages(m, f) && k + n <= |src| && Stored(m0, m, f, a, src, k)
    requires v == (a + k) / PGSIZE && Access(f, v) && (a + k) % PGSIZE + n <= PGSIZE
    ensures LeafOk(m, f[v])
    ensures var m' := Patch(m, Ppn(f[v]), (a + k) % PGSIZE, src[k..k + n]);
            UserPages(m', f) && Stored(m0, m', f, a, src, k + n)
  {
    hide Ppn, U;
    var off, chunk := (a + k) % PGSIZE, src[k..k + n];
    PatchPages(m, f, v, off, chunk);
    var m' := Patch(m, Ppn(f[v]), off, chunk);
    forall x: nat | Access(f, x / PGSIZE)
      ensures ByteAt(m', f, x) == if a <= x < a + k + n then src[x - a] else ByteAt(m0, f, x)
    {
      PatchByte(m, f, v, off, chunk, x);
      if x / PGSIZE == v {
        assert x - (a + k) == x % PGSIZE - off;
      } else {
        OtherPage(a + k, n, x);
      }
    }
  }

  /** An address in another page is not in the chunk. */
  lemma OtherPage(b: nat, n: nat, x: nat)
    requires b % PGSIZE + n <= PGSIZE && x / PGSIZE != b / PGSIZE
    ensures !(b <= x < b + n)
  {
  }

  lemma StoredNone(m: Mem, f: map<nat, nat>, a: nat, src: seq<nat>)
    requires UserPages(m, f)
    ensures Stored(m, m, f, a, src, 0)
  {
  }

  /** The chunk that ends at the page boundary is accessible with its page. */
  lemma SpanMore(f: map<nat, nat>, a: nat, k: nat, n: nat)
    requires Span(f, a, k) && Access(f, (a + k) / PGSIZE) && (a + k) % PGSIZE + n <= PGSIZE
    ensures Span(f, a, k + n)
  {
    hide Access;
    forall x: nat | a <= x < a + k + n ensures Access(f, x / PGSIZE) {
      if x >= a + k {
        SameChunk(a + k, n, x);
      }
    }
  }

  lemma SameChunk(b: nat, n: nat, x: nat)
    requires b % PGSIZE + n <= PGSIZE && b <= x < b + n
    ensures x / PGSIZE == b / PGSIZE
  {
  }

  /** The bytes a..a+n. */
  ghost function Bytes(m: Mem, f: map<nat, nat>, a: nat, n: nat): (s: seq<nat>)
    requires UserPages(m, f) && Span(f, a, n)
    ensures |s| == n && forall i :: 0 <= i < n ==> s[i] == ByteAt(m, f, a + i)
  {
    if n == 0 then [] else
      assert Access(f, (a + n - 1) / PGSIZE);
      Bytes(m, f, a, n - 1) + [ByteAt(m, f, a + n - 1)]
  }

  lemma BytesMore(m: Mem, f: map<nat, nat>, a: nat, k: nat, n: nat, v: nat)
    requires UserPages(m, f) && Span(f, a, k) && v == (a + k) / PGSIZE && Access(f, v) && (a + k) % PGSIZE + n <= PGSIZE
    ensures Span(f, a, k + n) && LeafOk(m, f[v])
    ensures Bytes(m, f, a, k + n) ==
              Bytes(m, f, a, k) + m[Ppn(f[v])].bytes[(a + k) % PGSIZE..(a + k) % PGSIZE + n]
  {
    hide Ppn, U;
    SpanMore(f, a, k, n);
    assert LeafOk(m, f[v]);
    var l := Bytes(m, f, a, k) + m[Ppn(f[v])].bytes[(a + k) % PGSIZE..(a + k) % PGSIZE + n];
    forall i | 0 <= i < k + n ensures Bytes(m, f, a, k + n)[i] == l[i] {
      if i >= k {
        ChunkByte(a + k, n, i - k);
      }
    }
  }

  lemma ChunkByte(b: nat, n: nat, j: nat)
    requires b % PGSIZE + n <= PGSIZE && j < n
    ensures (b + j) / PGSIZE == b / PGSIZE && (b + j) % PGSIZE == b % PGSIZE + j
  {
  }

  /** What copyout stored, copyin reads back. */
  lemma ReadBack(m: Mem, m': Mem, f: map<nat, nat>, a: nat, src: seq<nat>)
    requires UserPages(m, f) && UserPages(m', f) && Stored(m, m', f, a, src, |src|) && Span(f, a, |src|)
    ensures Bytes(m', f, a, |src|) == src
  {
    forall i | 0 <= i < |src| ensures Bytes(m', f, a, |src|)[i] == src[i] {
      assert Access(f, (a + i) / PGSIZE);
    }
  }

  /** All of a..a+k lies in pages with the W bit. */
  ghost predicate Writable(f: map<nat, nat>, a: nat, k: nat) {
    forall x: nat :: a <= x < a + k ==> x / PGSIZE in f && W(f[x / PGSIZE])
  }

  /** Every user page that changed has the W bit. */
  ghost predicate RespectsW(m: Mem, m': Mem, f: map<nat, nat>)
    requires UserPages(m, f) && UserPages(m', f)
  {
    forall x: nat :: Access(f, x / PGSIZE) && ByteAt(m', f, x) != ByteAt(m, f, x) ==> W(f[x / PGSIZE])
  }

  /** Any bytes can be stored to an accessible range. */
  lemma {:induction false} CanStore(m: Mem, f: map<nat, nat>, a: nat, src: seq<nat>, k: nat) returns (m': Mem)
    requires UserPages(m, f) && k <= |src| && Span(f, a, k)
    ensures UserPages(m', f) && Stored(m, m', f, a, src, k)
  {
    m' := m;
    if k == 0 {
      StoredNone(m, f, a, src);
    } else {
      hide UserPages, Access, Stored, Ppn;
      m' := CanStore(m, f, a, src, k - 1);
      assert Access(f, (a + k - 1) / PGSIZE);
      StoredMore(m, m', f, a, src, k - 1, 1, (a + k - 1) / PGSIZE);
      PatchShape(m', f, (a + k - 1) / PGSIZE);
      m' := Patch(m', Ppn(f[(a + k - 1) / PGSIZE]), (a + k - 1) % PGSIZE, src[k - 1..k]);
    }
  }

  /**
   copyout looks at V and U only. Whatever it stores, it stays within pages with the W bit
   exactly when every page of the range up to the first inaccessible one has that bit.
   */
  lemma RespectsWIff(m: Mem, f: map<nat, nat>, a: nat, n: nat, k: nat)
    requires UserPages(m, f) && k <= n && Span(f, a, k)
    ensures (forall src: seq<nat>, m': Mem ::
               |src| == n && UserPages(m', f) && Stored(m, m', f, a, src, k) ==> RespectsW(m, m', f)) <==>
            Writable(f, a, k)
  {
    hide UserPages, W, Ppn;
    if !Writable(f, a, k) {
      var x: nat :| a <= x < a + k && !(x / PGSIZE in f && W(f[x / PGSIZE]));
      assert Access(f, x / PGSIZE);
      var b := if ByteAt(m, f, x) == 0 then 1 else 0;
      var src := seq(n, _ => b);
      var m' := CanStore(m, f, a, src, k);
      assert ByteAt(m', f, x) == b;
      assert !RespectsW(m, m', f);
    }
  }

  /** A NUL-terminated string of length `k` starts at `a`. */
  ghost predicate StringAt(m: Mem, f: map<nat, nat>, a: nat, k: nat)
    requires UserPages(m, f)
  {
    && Span(f, a, k + 1)
    && 0 !in Bytes(m, f, a, k)
    && ByteAt(m, f, a + k) == 0
  }

  /** A process address space has the shape the copy functions rely on. */
  lemma ProcUserPages(m: Mem, sp: Space, n: nat)
    requires ProcSpace(m, sp, n) && 0 !in m
    ensures UserPages(m, Flat(m, sp))
  {
    hide WF, Flat, U, Ppn, Flags;
    var f := Flat(m, sp);
    forall v: nat | Access(f, v) ensures LeafOk(m, f[v]) && Ppn(f[v]) != 0 && v < PAGES {
      assert v < n;
      assert LeafOk(m, f[v]);
    }
  }

  /** Storing to user pages keeps the address space. */
  lemma StoredProc(m: Mem, m': Mem, sp: Space, n: nat, a: nat, src: seq<nat>, k: nat)
    requires ProcSpace(m, sp, n) && WF(m', sp) && Flat(m', sp) == Flat(m, sp) && k <= |src|
    requires UserPages(m, Flat(m, sp)) && UserPages(m', Flat(m, sp)) && Stored(m, m', Flat(m, sp), a, src, k)
    ensures ProcSpace(m', sp, n)
  {
    hide WF, Flat, U, Ppn, Flags, ByteAt;
    var f := Flat(m, sp);
    forall v: nat | v < n ensures LeafOk(m', f[v]) {
      assert LeafOk(m, f[v]);
      if Access(f, v) { assert LeafOk(m', f[v]); }
    }
  }

  lemma SpanNone(f: map<nat, nat>, a: nat)
    ensures Span(f, a, 0)
  {
  }

  lemma NotSpan(f: map<nat, nat>, a: nat, n: nat, k: nat)
    requires k < n && !Access(f, (a + k) / PGSIZE)
    ensures !Span(f, a, n)
  {
    assert a <= a + k < a + n;
  }

  lemma PatchShape(m: Mem, f: map<nat, nat>, v: nat)
    requires UserPages(m, f) && Access(f, v)
    ensures Ppn(f[v]) in m && m[Ppn(f[v])].Data? && |m[Ppn(f[v])].bytes| == PGSIZE
  {
    assert LeafOk(m, f[v]);
  }

  /** Writing to a plain page leaves the tables alone. */
  lemma PatchFrame(m: Mem, m': Mem, sp: Space, p: nat)
    requires WF(m, sp) && p in m && m[p].Data? && m'.Keys == m.Keys
    requires forall q :: q in m && q != p ==> m'[q] == m[q]
    ensures WF(m', sp) && Flat(m', sp) == Flat(m, sp)
  {
    hide Down, Up, Flat, V;
    FrameSpace(m, m', sp);
  }

  /** The byte that copyinstr looks at decides whether the string ends there. */
  lemma NextByte(m: Mem, f: map<nat, nat>, a: nat, k: nat, p: nat, off: nat, v: nat)
    requires UserPages(m, f) && Span(f, a, k + 1) && Span(f, a, k) && 0 !in Bytes(m, f, a, k)
    requires v == (a + k) / PGSIZE && off == (a + k) % PGSIZE && Access(f, v) && p == Ppn(f[v])
    ensures LeafOk(m, f[v]) && off < |m[p].bytes|
    ensures Bytes(m, f, a, k + 1) == Bytes(m, f, a, k) + [m[p].bytes[off]]
    ensures m[p].bytes[off] == 0 ==> StringAt(m, f, a, k)
  {
    hide Ppn, U;
    assert LeafOk(m, f[v]);
  }

  /** No string when an inaccessible page comes before any NUL. */
  lemma NoString(m: Mem, f: map<nat, nat>, a: nat, max: nat, k: nat)
    requires UserPages(m, f) && Span(f, a, k) && 0 !in Bytes(m, f, a, k) && !Access(f, (a + k) / PGSIZE)
    ensures !exists j: nat :: j < max && StringAt(m, f, a, j)
  {
    hide UserPages, Access, Span, StringAt;
    forall j: nat ensures !StringAt(m, f, a, j) {
      if j >= k {
        NotSpan(f, a, j + 1, k);
        StringSpan(m, f, a, j);
      } else {
        NotStringEnd(m, f, a, k, j);
      }
    }
  }

  lemma StringSpan(m: Mem, f: map<nat, nat>, a: nat, j: nat)
    requires UserPages(m, f)
    ensures StringAt(m, f, a, j) ==> Span(f, a, j + 1)
  {
  }

  lemma NotStringEnd(m: Mem, f: map<nat, nat>, a: nat, k: nat, j: nat)
    requires UserPages(m, f) && j < k && Span(f, a, k) && 0 !in Bytes(m, f, a, k)
    ensures !StringAt(m, f, a, j)
  {
    hide UserPages, Access;
    assert Access(f, (a + j) / PGSIZE);
    assert Bytes(m, f, a, k)[j] == ByteAt(m, f, a + j);
  }

  lemma NoStringInMax(m: Mem, f: map<nat, nat>, a: nat, max: nat)
    requires UserPages(m, f) && Span(f, a, max) && 0 !in Bytes(m, f, a, max)
    ensures !exists j: nat :: j < max && StringAt(m, f, a, j)
  {
    hide UserPages, Access, Span, StringAt;
    forall j: nat | j < max ensures !StringAt(m, f, a, j) {
      NotStringEnd(m, f, a, max, j);
    }
  }
}
