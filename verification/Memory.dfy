/** Bytes of pixel buffers: rows of a given stride, little-endian words, and the framebuffer's
    layout inside its memory object. */
module Memory {
  import opened Arithmetic
  import opened Wrappers
  import opened Rects
  import opened Blend

  const PAGE_SIZE := 4096

  lemma {:induction false} RowsInOrder(stride: nat, y: int, z: int)
    requires 0 <= y < z
    ensures 0 <= Times(stride, y) && Times(stride, y) + stride <= Times(stride, z)
    decreases z
  {
    if y < z - 1 {
      RowsInOrder(stride, y, z - 1);
    } else if y > 0 {
      RowsInOrder(stride, y - 1, y);
    }
  }

  /** The index of byte `c` of row `y`. */
  function At(stride: int, y: int, c: int): int {
    Times(stride, y) + c
  }

  /** A span inside one row holds exactly the bytes of that row between its ends. */
  lemma SpanIsOneRow(stride: nat, y: nat, a: int, b: int, z: nat, c: int)
    requires 0 <= a <= b <= stride && 0 <= c < stride
    ensures At(stride, y, a) <= At(stride, z, c) < At(stride, y, b) <==> z == y && a <= c < b
  {
    if z < y {
      RowsInOrder(stride, z, y);
    } else if z > y {
      RowsInOrder(stride, y, z);
    }
  }

  // ---- Painting spans of rows ----

  /** What each byte of each row of a picture should be. */
  type Picture = (int, int) -> Byte

  ghost function Span(y: int, a: int, b: int): iset<(int, int)> {
    iset c: int | a <= c < b :: (y, c)
  }

  ghost predicate PaintedAt(fb: Framebuffer, dst: seq<Byte>, was: seq<Byte>, stride: int,
                            done: iset<(int, int)>, picture: Picture, y: int, c: int)
    requires |dst| == |was| && 0 <= At(stride, y, c) < |dst|
  {
    dst[At(stride, y, c)] ==
      if c < 4 * fb.width && (y, c) in done then picture(y, c) else was[At(stride, y, c)]
  }

  /** In `dst` the bytes `done` are the picture's and all others are as they were: those of other
      pixels, the padding of each row, and whatever follows the last row. */
  ghost predicate Painted(fb: Framebuffer, dst: seq<Byte>, was: seq<Byte>, stride: int,
                          done: iset<(int, int)>, picture: Picture)
  {
    && |dst| == |was|
    && (forall y, c :: 0 <= y < fb.height && 0 <= c < stride && 0 <= At(stride, y, c) < |dst| ==>
          PaintedAt(fb, dst, was, stride, done, picture, y, c))
    && (forall i :: 0 <= i < |dst| && Times(stride, fb.height) <= i ==> dst[i] == was[i])
  }

  /** `after` is `before` with one span of row `y` painted. */
  ghost predicate PaintsSpan(before: seq<Byte>, after: seq<Byte>, stride: int, y: int, a: int, b: int,
                             picture: Picture)
  {
    && |after| == |before|
    && forall i :: 0 <= i < |after| ==>
         after[i] == if At(stride, y, a) <= i < At(stride, y, b)
                     then picture(y, i - Times(stride, y)) else before[i]
  }

  lemma SpanPainted(fb: Framebuffer, before: seq<Byte>, after: seq<Byte>, was: seq<Byte>, stride: int,
                    done: iset<(int, int)>, picture: Picture, y: int, a: int, b: int)
    requires stride >= 4 * fb.width && 0 <= y < fb.height && 0 <= a <= b <= 4 * fb.width
    requires Painted(fb, before, was, stride, done, picture)
    requires PaintsSpan(before, after, stride, y, a, b, picture)
    ensures Painted(fb, after, was, stride, done + Span(y, a, b), picture)
  {
    RowsInOrder(stride, y, fb.height);
    forall z, c | 0 <= z < fb.height && 0 <= c < stride && 0 <= At(stride, z, c) < |after|
      ensures PaintedAt(fb, after, was, stride, done + Span(y, a, b), picture, z, c)
    {
      assert PaintedAt(fb, before, was, stride, done, picture, z, c);
      SpanIsOneRow(stride, y, a, b, z, c);
      assert (z, c) in Span(y, a, b) <==> z == y && a <= c < b;
    }
  }

  /** The four bytes of the pixel are as they were. */
  ghost predicate UntouchedAt(now: seq<Byte>, was: seq<Byte>, stride: int, x: int, y: int) {
    var d := Times(stride, y) + 4 * x;
    && |now| == |was| && 0 <= d && d + 4 <= |now|
    && now[d] == was[d] && now[d + 1] == was[d + 1] && now[d + 2] == was[d + 2] && now[d + 3] == was[d + 3]
  }

  lemma ByteUntouched(fb: Framebuffer, now: seq<Byte>, was: seq<Byte>, stride: int, done: iset<(int, int)>,
                      picture: Picture, y: int, c: int)
    requires Painted(fb, now, was, stride, done, picture) && 0 <= y < fb.height && 0 <= c < stride
    requires 0 <= Times(stride, y) + c < |now| && (y, c) !in done
    ensures now[Times(stride, y) + c] == was[Times(stride, y) + c]
  {
    assert At(stride, y, c) == Times(stride, y) + c;
    assert PaintedAt(fb, now, was, stride, done, picture, y, c);
  }

  lemma PixelUntouched(fb: Framebuffer, now: seq<Byte>, was: seq<Byte>, stride: int, done: iset<(int, int)>,
                       picture: Picture, x: int, y: int)
    requires Painted(fb, now, was, stride, done, picture) && OnScreen(fb, x, y)
    requires stride >= 4 * fb.width && |now| >= Times(stride, fb.height)
    requires forall c :: 4 * x <= c < 4 * x + 4 ==> (y, c) !in done
    ensures UntouchedAt(now, was, stride, x, y)
  {
    RowsInOrder(stride, y, fb.height);
    ByteUntouched(fb, now, was, stride, done, picture, y, 4 * x);
    ByteUntouched(fb, now, was, stride, done, picture, y, 4 * x + 1);
    ByteUntouched(fb, now, was, stride, done, picture, y, 4 * x + 2);
    ByteUntouched(fb, now, was, stride, done, picture, y, 4 * x + 3);
  }

  // ---- The framebuffer's layout ----

  /** `memory` is the mapped object; the picture starts `offset` bytes into it. */
  datatype Layout = Layout(fb: Framebuffer, offset: nat, pitch: nat, memory: seq<Byte>)

  function Aligned(n: nat): nat {
    (n + PAGE_SIZE - 1) / PAGE_SIZE * PAGE_SIZE
  }

  /** The size that creating a framebuffer checks against the object, in 32-bit arithmetic. */
  function CheckedSize(l: Layout): nat {
    Aligned((l.offset + (l.pitch * l.fb.height) % TWO_TO_32) % TWO_TO_32) % TWO_TO_32
  }

  predicate CreationAccepts(l: Layout) {
    CheckedSize(l) <= |l.memory|
  }

  /** All rows of the picture lie in the object. */
  predicate Mapped(l: Layout) {
    l.pitch >= 4 * l.fb.width && l.offset + Times(l.pitch, l.fb.height) <= |l.memory|
  }

  lemma CheckHoldsSize(offset: nat, rows: nat, size: nat)
    requires offset + rows + PAGE_SIZE <= TWO_TO_32
    requires Aligned((offset + rows % TWO_TO_32) % TWO_TO_32) % TWO_TO_32 <= size
    ensures offset + rows <= size
  {
  }

  /** When the size does not wrap around, the check at creation puts every row inside the object. */
  lemma CreationCheckMaps(l: Layout)
    requires CreationAccepts(l) && l.pitch >= 4 * l.fb.width
    requires l.offset + l.pitch * l.fb.height + PAGE_SIZE <= TWO_TO_32
    ensures Mapped(l)
  {
    TimesIsProduct(l.pitch, l.fb.height);
    CheckHoldsSize(l.offset, l.pitch * l.fb.height, |l.memory|);
  }

  /** For an accepted layout of an object below 4 GiB the rows are inside exactly when the size does
      not wrap around. */
  lemma AcceptedIsMappedIff(l: Layout)
    requires CreationAccepts(l) && l.pitch >= 4 * l.fb.width && |l.memory| + PAGE_SIZE <= TWO_TO_32
    ensures Mapped(l) <==> l.offset + l.pitch * l.fb.height + PAGE_SIZE <= TWO_TO_32
  {
    TimesIsProduct(l.pitch, l.fb.height);
    if l.offset + l.pitch * l.fb.height + PAGE_SIZE <= TWO_TO_32 {
      CreationCheckMaps(l);
    }
  }

  /** A size that does wrap when it is aligned to pages: 64 rows of just below 64 MiB pass the check
      against an empty object. */
  lemma CreationCheckCanWrap()
    ensures exists l: Layout :: CreationAccepts(l) && l.pitch >= 4 * l.fb.width && !Mapped(l)
  {
    var l := Layout(Framebuffer(0, 64, 64, 0), 0, 0x3FF_FFFF, []);
    TimesIsProduct(0x3FF_FFFF, 64);
    assert l.pitch * l.fb.height == 0xFFFF_FFC0;
    assert CreationAccepts(l) && !Mapped(l);
  }

  /** The bytes of the framebuffer's own picture. */
  function PictureOf(l: Layout): Picture {
    (y: int, c: int) =>
      if 0 <= l.offset + At(l.pitch, y, c) < |l.memory| then l.memory[l.offset + At(l.pitch, y, c)] else 0
  }

  /** Copying to the client's buffer: fails, with nothing written, when the range leaves it. */
  method CopyToUser(dst: array<Byte>, to: int, src: seq<Byte>, from: nat, n: nat) returns (ok: bool)
    requires from + n <= |src|
    modifies dst
    ensures ok == (n == 0 || (0 <= to && to + n <= dst.Length))
    ensures !ok ==> dst[..] == old(dst[..])
    ensures ok ==> forall i :: 0 <= i < dst.Length ==>
      dst[i] == if to <= i < to + n then src[from + i - to] else old(dst[i])
  {
    if n != 0 && !(0 <= to && to + n <= dst.Length) {
      return false;
    }
    var i := 0;
    while i < n
      invariant i <= n
      invariant forall j :: 0 <= j < dst.Length ==>
        dst[j] == if to <= j < to + i then src[from + j - to] else old(dst[j])
    {
      dst[to + i] := src[from + i];
      i := i + 1;
    }
    ok := true;
  }

  // ---- Words ----

  function ByteOf(v: Word, k: int): Byte {
    if k == 0 then v.b0 else if k == 1 then v.b1 else if k == 2 then v.b2 else v.b3
  }

  function BytesOf(v: Word): seq<Byte> {
    [v.b0, v.b1, v.b2, v.b3]
  }

  /** The word at index `i`. */
  function WordAt(bytes: seq<Byte>, i: int): Word
    requires 0 <= i && i + 4 <= |bytes|
  {
    Word(bytes[i], bytes[i + 1], bytes[i + 2], bytes[i + 3])
  }
}
