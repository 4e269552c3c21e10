/**
 The framebuffer: what the screen should show, what the panel is believed to show, and the two-step
 flush between them. `Fb` is the framebuffer as a value; `FrameBuffer` is the one the program keeps,
 drawing into it in place.
 */
module Framebuffers {
  import opened Options
  import opened Geometry

  type Byte = bv8
  type Buffer = b: seq<Byte> | |b| == BUF_LEN witness seq(BUF_LEN, _ => 0xFF)

  const BYTES_PER_ROW := 30
  const BUF_LEN := 9600

  // ----- Bytes and pixels

  /** The byte at byte column `bx` of row `y`. */
  function At(b: Buffer, bx: nat, y: nat): Byte
    requires bx < BYTES_PER_ROW && y < HEIGHT
  {
    b[y * BYTES_PER_ROW + bx]
  }

  /** `0x80 >> k`. */
  function Mask(k: nat): Byte
    requires k < 8
  {
    if k == 0 then 0x80 else if k == 1 then 0x40 else if k == 2 then 0x20 else if k == 3 then 0x10
    else if k == 4 then 0x08 else if k == 5 then 0x04 else if k == 6 then 0x02 else 0x01
  }

  predicate BitClear(b: Byte, k: nat)
    requires k < 8
  {
    b & Mask(k) == 0
  }

  /** A clear bit is black. */
  predicate Black(b: Buffer, px: nat, py: nat)
    requires px < WIDTH && py < HEIGHT
  {
    BitClear(At(b, px / 8, py), px % 8)
  }

  function WithBit(b: Byte, k: nat, black: bool): Byte
    requires k < 8
  {
    if black then b & !Mask(k) else b | Mask(k)
  }

  lemma WithBitSetsOne(b: Byte, k: nat, j: nat, black: bool)
    requires k < 8 && j < 8
    ensures BitClear(WithBit(b, k, black), j) <==> (if j == k then black else BitClear(b, j))
  {
  }

  // ----- Pixels as binary digits

  function Power2(n: nat): (p: nat)
    ensures p > 0
  {
    if n == 0 then 1 else 2 * Power2(n - 1)
  }

  /** The binary digit of `b` worth two to the `place`. */
  function DigitAt(b: Byte, place: nat): nat {
    b as nat / Power2(place) % 2
  }

  lemma Powers()
    ensures Power2(0) == 1 && Power2(1) == 2 && Power2(2) == 4 && Power2(3) == 8
    ensures Power2(4) == 16 && Power2(5) == 32 && Power2(6) == 64 && Power2(7) == 128
  {
    assert Power2(2) == 4 && Power2(4) == 16 && Power2(6) == 64;
  }

  lemma Bit0(b: Byte)
    ensures b & 0x80 == 0 <==> b as nat / 128 % 2 == 0
  {
  }

  lemma Bit1(b: Byte)
    ensures b & 0x40 == 0 <==> b as nat / 64 % 2 == 0
  {
  }

  lemma Bit2(b: Byte)
    ensures b & 0x20 == 0 <==> b as nat / 32 % 2 == 0
  {
  }

  lemma Bit3(b: Byte)
    ensures b & 0x10 == 0 <==> b as nat / 16 % 2 == 0
  {
  }

  lemma Bit4(b: Byte)
    ensures b & 0x08 == 0 <==> b as nat / 8 % 2 == 0
  {
  }

  lemma Bit5(b: Byte)
    ensures b & 0x04 == 0 <==> b as nat / 4 % 2 == 0
  {
  }

  lemma Bit6(b: Byte)
    ensures b & 0x02 == 0 <==> b as nat / 2 % 2 == 0
  {
  }

  lemma Bit7(b: Byte)
    ensures b & 0x01 == 0 <==> b as nat / 1 % 2 == 0
  {
  }

  lemma BitIsDigit(b: Byte, k: nat)
    requires k < 8
    ensures BitClear(b, k) <==> DigitAt(b, 7 - k) == 0
  {
    if k < 4 {
      UpperBitIsDigit(b, k);
    } else {
      LowerBitIsDigit(b, k);
    }
  }

  lemma UpperBitIsDigit(b: Byte, k: nat)
    requires k < 4
    ensures BitClear(b, k) <==> DigitAt(b, 7 - k) == 0
  {
    Powers();
    match k {
      case 0 => Bit0(b);
      case 1 => Bit1(b);
      case 2 => Bit2(b);
      case 3 => Bit3(b);
    }
  }

  lemma LowerBitIsDigit(b: Byte, k: nat)
    requires 4 <= k < 8
    ensures BitClear(b, k) <==> DigitAt(b, 7 - k) == 0
  {
    Powers();
    match k {
      case 4 => Bit4(b);
      case 5 => Bit5(b);
      case 6 => Bit6(b);
      case 7 => Bit7(b);
    }
  }

  /** Eight pixels a byte, the leftmost the most significant digit; black is 0. */
  lemma BlackIsZeroDigit(b: Buffer, px: nat, py: nat)
    requires px < 240 && py < 320
    ensures Black(b, px, py) <==> b[py * 30 + px / 8] as nat / Power2(7 - px % 8) % 2 == 0
  {
    BitIsDigit(At(b, px / 8, py), px % 8);
  }

  /** The digit of place `7 - k` is written and the other seven are kept. */
  ghost predicate DigitWritten(before: Byte, after: Byte, k: nat, black: bool)
    requires k < 8
  {
    forall place :: 0 <= place < 8 ==>
      DigitAt(after, place) == if place == 7 - k then (if black then 0 else 1) else DigitAt(before, place)
  }

  lemma WithBitWritesDigit(b: Byte, k: nat, black: bool)
    requires k < 8
    ensures DigitWritten(b, WithBit(b, k, black), k, black)
  {
    forall place | 0 <= place < 8
      ensures DigitAt(WithBit(b, k, black), place) ==
              if place == 7 - k then (if black then 0 else 1) else DigitAt(b, place)
    {
      WithBitSetsOne(b, k, 7 - place, black);
      BitIsDigit(b, 7 - place);
      BitIsDigit(WithBit(b, k, black), 7 - place);
    }
  }

  lemma ByteIndexInjective(bx: nat, y: nat, cx: nat, z: nat)
    requires bx < BYTES_PER_ROW && cx < BYTES_PER_ROW
    ensures y * BYTES_PER_ROW + bx == z * BYTES_PER_ROW + cx ==> bx == cx && y == z
  {
  }

  /** Buffers with equal bytes at every position are equal. */
  lemma BuffersEqual(a: Buffer, b: Buffer)
    requires forall bx, y :: 0 <= bx < BYTES_PER_ROW && 0 <= y < HEIGHT ==> At(a, bx, y) == At(b, bx, y)
    ensures a == b
  {
    forall i | 0 <= i < BUF_LEN
      ensures a[i] == b[i]
    {
      assert At(a, i % BYTES_PER_ROW, i / BYTES_PER_ROW) == At(b, i % BYTES_PER_ROW, i / BYTES_PER_ROW);
    }
  }

  // ----- Boxes and regions

  /** Pixel columns `x0..x1` and rows `y0..y1`. */
  datatype Box = Box(x0: U16, y0: U16, x1: U16, y1: U16)

  /** On screen and 8-aligned. */
  predicate WellFormed(box: Box) {
    box.x0 % 8 == 0 && box.x1 % 8 == 0 && box.x0 <= box.x1 <= WIDTH && box.y0 <= box.y1 <= HEIGHT
  }

  predicate InBox(box: Box, bx: nat, y: nat) {
    box.x0 / 8 <= bx < box.x1 / 8 && box.y0 <= y < box.y1
  }

  predicate InDirty(dirty: Option<Box>, bx: nat, y: nat) {
    dirty.Some? && InBox(dirty.value, bx, y)
  }

  function Join(dirty: Option<Box>, b: Box): Box {
    match dirty
    case None => b
    case Some(d) => Box(Min(d.x0, b.x0), Min(d.y0, b.y0), Max(d.x1, b.x1), Max(d.y1, b.y1))
  }

  /** A rectangle of whole bytes on the screen. */
  predicate OnBytes(r: Rect) {
    r.x + r.w <= WIDTH && r.y + r.h <= HEIGHT && r.x % 8 == 0 && r.w % 8 == 0
  }

  predicate InBytes(r: Rect, bx: nat, y: nat) {
    r.x / 8 <= bx < r.x / 8 + r.w / 8 && r.y <= y < r.y + r.h
  }

  /** The bytes to put in a rectangle, row by row. */
  datatype Region = Region(rect: Rect, data: seq<Byte>)

  ghost predicate ValidRegion(r: Region) {
    OnBytes(r.rect) && |r.data| == r.rect.h * (r.rect.w / 8)
  }

  /** `h` rows of `bw` bytes starting at byte column `xb` of row `y`, one after the other. */
  function Extracted(b: Buffer, xb: nat, y: nat, bw: nat, h: nat): (data: seq<Byte>)
    requires xb + bw <= BYTES_PER_ROW && y + h <= HEIGHT
    ensures |data| == h * bw
  {
    if h == 0 then []
    else
      var at := (y + h - 1) * BYTES_PER_ROW + xb;
      Extracted(b, xb, y, bw, h - 1) + b[at..at + bw]
  }

  /** `b` with the first `h` rows of `data` written at byte column `xb` from row `y` down. */
  function Written(b: Buffer, data: seq<Byte>, xb: nat, y: nat, bw: nat, h: nat): Buffer
    requires xb + bw <= BYTES_PER_ROW && y + h <= HEIGHT && h * bw <= |data|
  {
    if h == 0 then b
    else
      var at := (y + h - 1) * BYTES_PER_ROW + xb;
      assert (h - 1) * bw + bw == h * bw;
      var before := Written(b, data, xb, y, bw, h - 1);
      before[..at] + data[(h - 1) * bw..h * bw] + before[at + bw..]
  }

  lemma WrittenNext(b: Buffer, data: seq<Byte>, xb: nat, y: nat, bw: nat, row: nat)
    requires xb + bw <= BYTES_PER_ROW && y + row < HEIGHT && row * bw + bw == (row + 1) * bw <= |data|
    ensures var at, before := (y + row) * BYTES_PER_ROW + xb, Written(b, data, xb, y, bw, row);
            Written(b, data, xb, y, bw, row + 1)
            == before[..at] + data[row * bw..(row + 1) * bw] + before[at + bw..]
  {
  }

  /** One row of `src` written over `before`. */
  lemma RowWritten(before: Buffer, src: Buffer, after: Buffer, xb: nat, y: nat, bw: nat)
    requires xb + bw <= BYTES_PER_ROW && y < HEIGHT
    requires var at := y * BYTES_PER_ROW + xb; after == before[..at] + src[at..at + bw] + before[at + bw..]
    ensures forall cx, cy :: 0 <= cx < BYTES_PER_ROW && 0 <= cy < HEIGHT ==>
              At(after, cx, cy) == if xb <= cx < xb + bw && cy == y then At(src, cx, cy) else At(before, cx, cy)
  {
    var at := y * BYTES_PER_ROW + xb;
    forall cx, cy | 0 <= cx < BYTES_PER_ROW && 0 <= cy < HEIGHT
      ensures At(after, cx, cy) == if xb <= cx < xb + bw && cy == y then At(src, cx, cy) else At(before, cx, cy)
    {
      var i := cy * BYTES_PER_ROW + cx;
      if at <= i < at + bw {
        assert cy == y;
      }
    }
  }

  /** Writing the bytes extracted from `src` copies exactly the rectangle. */
  lemma {:induction false} WriteExtracted(b: Buffer, src: Buffer, more: seq<Byte>, xb: nat, y: nat, bw: nat, h: nat)
    requires xb + bw <= BYTES_PER_ROW && y + h <= HEIGHT
    ensures |Extracted(src, xb, y, bw, h) + more| >= h * bw
    ensures forall cx, cy :: 0 <= cx < BYTES_PER_ROW && 0 <= cy < HEIGHT ==>
              At(Written(b, Extracted(src, xb, y, bw, h) + more, xb, y, bw, h), cx, cy) ==
              if xb <= cx < xb + bw && y <= cy < y + h then At(src, cx, cy) else At(b, cx, cy)
    decreases h
  {
    if h > 0 {
      var at := (y + h - 1) * BYTES_PER_ROW + xb;
      var row := src[at..at + bw];
      var data := Extracted(src, xb, y, bw, h) + more;
      assert (h - 1) * bw + bw == h * bw;
      assert data == Extracted(src, xb, y, bw, h - 1) + (row + more);
      assert data[(h - 1) * bw..h * bw] == row;
      WriteExtracted(b, src, row + more, xb, y, bw, h - 1);
      RowWritten(Written(b, data, xb, y, bw, h - 1), src, Written(b, data, xb, y, bw, h), xb, y + h - 1, bw);
    }
  }

  // ----- The framebuffer as a value

  datatype Flush = Full(bytes: Buffer) | Partial(region: Region)

  datatype Fb = Fb(desired: Buffer, committed: Buffer, dirty: Option<Box>, known: bool, inFlight: Option<Flush>)

  ghost predicate ValidFb(s: Fb) {
    && (s.dirty.Some? ==> WellFormed(s.dirty.value))
    && (s.inFlight.Some? && s.inFlight.value.Partial? ==> ValidRegion(s.inFlight.value.region))
  }

  /** All white. */
  function Blank(): Buffer {
    seq(BUF_LEN, _ => 0xFF)
  }

  /** At first every pixel is white. */
  lemma BlankIsWhite(px: nat, py: nat)
    requires px < 240 && py < 320
    ensures !Black(Blank(), px, py)
  {
    assert At(Blank(), px / 8, py) == 0xFF;
    assert !BitClear(0xFF, px % 8);
  }

  /** White, and nothing known about the panel. */
  function Boot(): Fb {
    Fb(Blank(), Blank(), None, false, None)
  }

  /** What the panel shows after `flush` is drawn over `b`. */
  function Patched(b: Buffer, flush: Flush): Buffer
    requires flush.Partial? ==> ValidRegion(flush.region)
  {
    match flush
    case Full(bytes) => bytes
    case Partial(r) => Written(b, r.data, r.rect.x / 8, r.rect.y, r.rect.w / 8, r.rect.h)
  }

  predicate Differs(d: Buffer, c: Buffer, bx: nat, y: nat)
    requires bx < BYTES_PER_ROW && y < HEIGHT
  {
    At(d, bx, y) != At(c, bx, y)
  }

  ghost predicate NoChange(u: Buffer, v: Buffer, box: Box)
    requires WellFormed(box)
  {
    forall bx, y :: 0 <= bx < BYTES_PER_ROW && 0 <= y < HEIGHT && InBox(box, bx, y) ==> !Differs(u, v, bx, y)
  }

  /** `r` is the smallest whole-byte rectangle around the changes within `box`. */
  ghost predicate Tight(u: Buffer, v: Buffer, box: Box, r: Rect)
    requires WellFormed(box)
  {
    && OnBytes(r) && !r.IsEmpty()
    && (forall bx, y :: 0 <= bx < BYTES_PER_ROW && 0 <= y < HEIGHT && InBox(box, bx, y) && Differs(u, v, bx, y) ==>
          InBytes(r, bx, y))
    && (forall bx, y :: 0 <= bx < BYTES_PER_ROW && 0 <= y < HEIGHT && InBytes(r, bx, y) ==> InBox(box, bx, y))
    && ChangedInColumn(u, v, r.x / 8, r.y, r.y + r.h)
    && ChangedInColumn(u, v, r.x / 8 + r.w / 8 - 1, r.y, r.y + r.h)
    && ChangedInRow(u, v, r.y, r.x / 8, r.x / 8 + r.w / 8)
    && ChangedInRow(u, v, r.y + r.h - 1, r.x / 8, r.x / 8 + r.w / 8)
  }

  ghost predicate ChangedInColumn(u: Buffer, v: Buffer, bx: nat, y0: nat, y1: nat) {
    bx < BYTES_PER_ROW && exists y :: y0 <= y < y1 && y < HEIGHT && Differs(u, v, bx, y)
  }

  ghost predicate ChangedInRow(u: Buffer, v: Buffer, y: nat, b0: nat, b1: nat) {
    y < HEIGHT && exists bx :: b0 <= bx < b1 && bx < BYTES_PER_ROW && Differs(u, v, bx, y)
  }

  /** `r` carries the bytes `b` has in its rectangle. */
  predicate HoldsRectangle(r: Region, b: Buffer) {
    OnBytes(r.rect) && r.data == Extracted(b, r.rect.x / 8, r.rect.y, r.rect.w / 8, r.rect.h)
  }

  /** `t` and `flush` are what `begin_flush` makes of `s`. */
  ghost predicate Begins(s: Fb, t: Fb, flush: Option<Flush>)
    requires ValidFb(s)
  {
    if s.inFlight.Some? then flush.None? && t == s
    else if !s.known then flush == Some(Full(s.desired)) && t == s.(dirty := None, inFlight := flush)
    else if s.dirty.None? then flush.None? && t == s
    else if NoChange(s.desired, s.committed, s.dirty.value) then flush.None? && t == s.(dirty := None)
    else
      && flush.Some? && flush.value.Partial?
      && Tight(s.desired, s.committed, s.dirty.value, flush.value.region.rect)
      && HoldsRectangle(flush.value.region, s.desired)
      && t == s.(dirty := None, inFlight := flush)
  }

  function EndFlush(s: Fb, ok: bool): Fb
    requires s.inFlight.Some? && s.inFlight.value.Partial? ==> ValidRegion(s.inFlight.value.region)
  {
    if s.inFlight.None? then s
    else
      var t := s.(inFlight := None);
      if !ok then t.(known := false)
      else
        var u := t.(committed := Patched(s.committed, s.inFlight.value));
        if s.inFlight.value.Full? then u.(known := true) else u
  }

  function Invalidated(s: Fb): Fb {
    s.(known := false)
  }

  predicate NeedsFlush(s: Fb) {
    s.inFlight.None? && (!s.known || s.dirty.Some?)
  }

  /** Drawing: the desired picture changes, and only inside the dirty box, which never shrinks. */
  ghost predicate Draws(s: Fb, t: Fb) {
    && t == s.(desired := t.desired, dirty := t.dirty)
    && (t.dirty.Some? ==> WellFormed(t.dirty.value))
    && (forall bx, y :: 0 <= bx < BYTES_PER_ROW && 0 <= y < HEIGHT && InDirty(s.dirty, bx, y) ==>
          InDirty(t.dirty, bx, y))
    && (forall bx, y :: 0 <= bx < BYTES_PER_ROW && 0 <= y < HEIGHT && At(s.desired, bx, y) != At(t.desired, bx, y) ==>
          InDirty(t.dirty, bx, y))
  }

  lemma DrawsTransitive(s: Fb, t: Fb, u: Fb)
    requires Draws(s, t) && Draws(t, u)
    ensures Draws(s, u)
  {
  }

  // ----- A flush can always be begun

  /** `r` lies within `box` and has in it every change within `box`, of which there is one. */
  ghost predicate Encloses(u: Buffer, v: Buffer, box: Box, r: Rect)
    requires WellFormed(box)
  {
    && OnBytes(r)
    && (forall bx, y :: 0 <= bx < BYTES_PER_ROW && 0 <= y < HEIGHT && InBox(box, bx, y) && Differs(u, v, bx, y) ==>
          InBytes(r, bx, y))
    && (forall bx, y :: 0 <= bx < BYTES_PER_ROW && 0 <= y < HEIGHT && InBytes(r, bx, y) ==> InBox(box, bx, y))
    && HasChange(u, v, r)
  }

  ghost predicate HasChange(u: Buffer, v: Buffer, r: Rect) {
    exists bx, y :: 0 <= bx < BYTES_PER_ROW && 0 <= y < HEIGHT && InBytes(r, bx, y) && Differs(u, v, bx, y)
  }

  /** `r` without its first or its last column or row. */
  function WithoutEdge(r: Rect, edge: nat): Rect
    requires r.w >= 8 && r.h >= 1 && OnBytes(r)
  {
    if edge == 0 then Rect(r.x + 8, r.y, r.w - 8, r.h)
    else if edge == 1 then Rect(r.x, r.y, r.w - 8, r.h)
    else if edge == 2 then Rect(r.x, r.y + 1, r.w, r.h - 1)
    else Rect(r.x, r.y, r.w, r.h - 1)
  }

  ghost predicate EdgeChanged(u: Buffer, v: Buffer, r: Rect, edge: nat)
    requires r.w >= 8 && r.h >= 1 && OnBytes(r)
  {
    if edge == 0 then ChangedInColumn(u, v, r.x / 8, r.y, r.y + r.h)
    else if edge == 1 then ChangedInColumn(u, v, r.x / 8 + r.w / 8 - 1, r.y, r.y + r.h)
    else if edge == 2 then ChangedInRow(u, v, r.y, r.x / 8, r.x / 8 + r.w / 8)
    else ChangedInRow(u, v, r.y + r.h - 1, r.x / 8, r.x / 8 + r.w / 8)
  }

  lemma EdgeDropped(u: Buffer, v: Buffer, box: Box, r: Rect, edge: nat)
    requires WellFormed(box) && Encloses(u, v, box, r) && r.w >= 8 && r.h >= 1 && !EdgeChanged(u, v, r, edge)
    ensures Encloses(u, v, box, WithoutEdge(r, edge))
  {
    forall bx, y | 0 <= bx < BYTES_PER_ROW && 0 <= y < HEIGHT && InBytes(r, bx, y) && Differs(u, v, bx, y)
      ensures InBytes(WithoutEdge(r, edge), bx, y)
    {
    }
  }

  /** Around any changes in a box there is a smallest whole-byte rectangle. */
  lemma {:induction false} TightExists(u: Buffer, v: Buffer, box: Box, r: Rect) returns (t: Rect)
    requires WellFormed(box) && Encloses(u, v, box, r)
    ensures Tight(u, v, box, t)
    decreases r.w + r.h
  {
    assert r.w >= 8 && r.h >= 1;
    if edge :| 0 <= edge < 4 && !EdgeChanged(u, v, r, edge) {
      EdgeDropped(u, v, box, r, edge);
      t := TightExists(u, v, box, WithoutEdge(r, edge));
    } else {
      assert EdgeChanged(u, v, r, 0) && EdgeChanged(u, v, r, 1) && EdgeChanged(u, v, r, 2) && EdgeChanged(u, v, r, 3);
      t := r;
    }
  }

  /** Whatever the state, `begin_flush` has an outcome. */
  lemma BeginsSomehow(s: Fb) returns (t: Fb, flush: Option<Flush>)
    requires ValidFb(s)
    ensures Begins(s, t, flush)
  {
    if s.inFlight.Some? {
      t, flush := s, None;
    } else if !s.known {
      flush := Some(Full(s.desired));
      t := s.(dirty := None, inFlight := flush);
    } else if s.dirty.None? || NoChange(s.desired, s.committed, s.dirty.value) {
      t, flush := s.(dirty := None), None;
    } else {
      var b := s.dirty.value;
      var r := TightExists(s.desired, s.committed, b, Rect(b.x0, b.y0, b.x1 - b.x0, b.y1 - b.y0));
      flush := Some(Partial(Region(r, Extracted(s.desired, r.x / 8, r.y, r.w / 8, r.h))));
      t := s.(dirty := None, inFlight := flush);
    }
  }

  // ----- The framebuffer and the panel, over runs

  /** The framebuffer with the picture really on the panel. */
  datatype Shown = Shown(fb: Fb, panel: Buffer)

  /**
   One event: a drawing operation, the start of a flush, its success (the panel now shows what was
   sent), its failure (the panel may show anything), or forgetting what the panel shows.
   */
  ghost predicate StepTo(a: Shown, b: Shown) {
    && ValidFb(a.fb)
    && (|| (Draws(a.fb, b.fb) && b.panel == a.panel)
        || (b.panel == a.panel && exists flush :: Begins(a.fb, b.fb, flush))
        || (a.fb.inFlight.Some? && b == Shown(EndFlush(a.fb, true), Patched(a.panel, a.fb.inFlight.value)))
        || (a.fb.inFlight.Some? && b.fb == EndFlush(a.fb, false))
        || b == Shown(Invalidated(a.fb), a.panel))
  }

  /** What the committed picture will be once the flush in flight succeeds. */
  function Promised(s: Fb): Buffer
    requires ValidFb(s)
  {
    if s.inFlight.Some? then Patched(s.committed, s.inFlight.value) else s.committed
  }

  /** The flush in flight, or what is known, leaves only the dirty box to be sent. */
  ghost predicate DirtyCovers(s: Fb)
    requires ValidFb(s)
  {
    s.known || (s.inFlight.Some? && s.inFlight.value.Full?) ==>
      forall bx, y ::
        0 <= bx < BYTES_PER_ROW && 0 <= y < HEIGHT && At(s.desired, bx, y) != At(Promised(s), bx, y) ==>
          InDirty(s.dirty, bx, y)
  }

  ghost predicate Coherent(a: Shown) {
    && ValidFb(a.fb)
    && DirtyCovers(a.fb)
    && (a.fb.known ==> a.fb.committed == a.panel)
  }

  /** A flush carries everything: with it applied, the committed picture is the desired one. */
  lemma FlushIsFullCopy(s: Fb, t: Fb, flush: Flush)
    requires ValidFb(s) && DirtyCovers(s) && s.inFlight.None? && Begins(s, t, Some(flush))
    ensures flush.Partial? ==> ValidRegion(flush.region)
    ensures Patched(s.committed, flush) == s.desired
  {
    if flush.Partial? {
      var r := flush.region;
      WriteExtracted(s.committed, s.desired, [], r.rect.x / 8, r.rect.y, r.rect.w / 8, r.rect.h);
      assert r.data + [] == r.data;
      BuffersEqual(Patched(s.committed, flush), s.desired);
    }
  }

  /** With the panel known and nothing in flight, a flush starts exactly when the pictures differ. */
  lemma FlushOnlyWhenDifferent(s: Fb, t: Fb, flush: Option<Flush>)
    requires ValidFb(s) && DirtyCovers(s) && s.known && s.inFlight.None? && Begins(s, t, flush)
    ensures flush.Some? <==> s.desired != s.committed
  {
    if flush.None? {
      BuffersEqual(s.desired, s.committed);
    }
  }

  lemma BeginKeeps(a: Shown, b: Shown, flush: Option<Flush>)
    requires Coherent(a) && b.panel == a.panel && Begins(a.fb, b.fb, flush)
    ensures Coherent(b)
  {
    if flush.Some? {
      FlushIsFullCopy(a.fb, b.fb, flush.value);
    }
  }

  lemma StepKeeps(a: Shown, b: Shown)
    requires Coherent(a) && StepTo(a, b)
    ensures Coherent(b)
  {
    if b.panel == a.panel && exists flush :: Begins(a.fb, b.fb, flush) {
      var flush :| Begins(a.fb, b.fb, flush);
      BeginKeeps(a, b, flush);
    }
  }

  ghost predicate IsRun(run: seq<Shown>) {
    && run != [] && run[0].fb == Boot()
    && forall k :: 0 <= k < |run| - 1 ==> StepsAt(run, k)
  }

  ghost predicate StepsAt(run: seq<Shown>, k: nat)
    requires k + 1 < |run|
  {
    StepTo(run[k], run[k + 1])
  }

  /**
   Over every run: what is believed to be on the panel is on it, and an idle framebuffer means the
   panel shows the desired picture.
   */
  lemma {:induction false} AlwaysCoherent(run: seq<Shown>)
    requires IsRun(run)
    ensures var a := run[|run| - 1];
            && Coherent(a)
            && (a.fb.inFlight.None? && !NeedsFlush(a.fb) ==> a.panel == a.fb.desired)
    decreases |run|
  {
    var a := run[|run| - 1];
    if |run| > 1 {
      var front := run[..|run| - 1];
      assert StepsAt(run, |run| - 2);
      forall k | 0 <= k < |front| - 1
        ensures StepsAt(front, k)
      {
        assert StepsAt(run, k);
      }
      AlwaysCoherent(front);
      StepKeeps(front[|front| - 1], a);
    }
    if a.fb.inFlight.None? && !NeedsFlush(a.fb) {
      BuffersEqual(a.fb.desired, a.fb.committed);
    }
  }

  /** Drawing and flushes ending, in any order and number, after an `invalidate`. */
  ghost predicate Meanwhile(run: seq<Fb>) {
    forall k :: 0 <= k < |run| - 1 ==> DrawsOrEnds(run, k)
  }

  ghost predicate DrawsOrEnds(run: seq<Fb>, k: nat)
    requires k + 1 < |run|
  {
    ValidFb(run[k])
    && (Draws(run[k], run[k + 1]) || run[k + 1] == EndFlush(run[k], false) || run[k + 1] == EndFlush(run[k], true))
  }

  ghost predicate NextIsFull(s: Fb)
    requires ValidFb(s)
  {
    exists t :: Begins(s, t, Some(Full(s.desired)))
  }

  /** A full flush in flight ends well somewhere in `run`. */
  ghost predicate FullFlushLands(run: seq<Fb>) {
    exists k :: 0 <= k < |run| - 1 && FullLandsAt(run, k)
  }

  ghost predicate FullLandsAt(run: seq<Fb>, k: nat)
    requires k + 1 < |run|
  {
    run[k].inFlight.Some? && run[k].inFlight.value.Full? && run[k + 1].inFlight.None? && run[k + 1].known
  }

  /**
   After `invalidate`, the next flush is full exactly when no full flush that was already in flight
   ends well in between. (The code's comment promises it always.)
   */
  lemma {:induction false} InvalidateLasts(run: seq<Fb>)
    requires run != [] && !run[0].known && Meanwhile(run)
    ensures run[|run| - 1].known <==> FullFlushLands(run)
    ensures run[|run| - 1].known ==> run[|run| - 1].inFlight.None?
    ensures ValidFb(run[|run| - 1]) && run[|run| - 1].inFlight.None? ==>
              (NextIsFull(run[|run| - 1]) <==> !FullFlushLands(run))
    decreases |run|
  {
    if |run| > 1 {
      var front, s, t := run[..|run| - 1], run[|run| - 2], run[|run| - 1];
      forall k | 0 <= k < |front| - 1
        ensures DrawsOrEnds(front, k)
      {
        assert DrawsOrEnds(run, k);
      }
      InvalidateLasts(front);
      assert DrawsOrEnds(run, |run| - 2);
      if FullFlushLands(front) {
        var k :| 0 <= k < |front| - 1 && FullLandsAt(front, k);
        assert FullLandsAt(run, k);
      }
      if FullFlushLands(run) {
        var k :| 0 <= k < |run| - 1 && FullLandsAt(run, k);
        if k < |run| - 2 {
          assert FullLandsAt(front, k);
        }
      }
      if t.known && !s.known {
        assert FullLandsAt(run, |run| - 2);
      }
    }
    var s := run[|run| - 1];
    if !s.known && s.inFlight.None? && ValidFb(s) {
      assert Begins(s, s.(dirty := None, inFlight := Some(Full(s.desired))), Some(Full(s.desired)));
    }
  }

  predicate FullInFlight(s: Fb) {
    s.inFlight.Some? && s.inFlight.value.Full?
  }

  lemma {:induction false} NoFullAppears(run: seq<Fb>, k: nat)
    requires k < |run| && Meanwhile(run) && !FullInFlight(run[0])
    ensures !FullInFlight(run[k])
  {
    if k > 0 {
      NoFullAppears(run, k - 1);
      assert DrawsOrEnds(run, k - 1);
    }
  }

  /**
   So `invalidate` can be relied on, whatever is drawn and however flushes end afterwards, exactly
   when no full flush is in flight at the time.
   */
  lemma InvalidateReliableExactlyWhen(s: Fb)
    requires ValidFb(s)
    ensures (forall run: seq<Fb> :: Meanwhile(run) && run != [] && run[0] == Invalidated(s) ==> !run[|run| - 1].known)
            <==> !FullInFlight(s)
  {
    var t := Invalidated(s);
    if FullInFlight(s) {
      var run := [t, EndFlush(t, true)];
      assert DrawsOrEnds(run, 0);
      assert Meanwhile(run) && run[|run| - 1].known;
    } else {
      forall run: seq<Fb> | Meanwhile(run) && run != [] && run[0] == t
        ensures !run[|run| - 1].known
      {
        InvalidateLasts(run);
        if FullFlushLands(run) {
          var k :| 0 <= k < |run| - 1 && FullLandsAt(run, k);
          NoFullAppears(run, k);
        }
      }
    }
  }

  /** The promise fails: invalidating while the first full flush is in flight leaves nothing to send. */
  lemma InvalidateForgotten()
    ensures var s := Invalidated(Boot().(inFlight := Some(Full(Blank()))));
            Begins(Boot(), Boot().(inFlight := Some(Full(Blank()))), Some(Full(Blank())))
            && EndFlush(s, true).known && !NeedsFlush(EndFlush(s, true))
  {
  }

  // ----- Drawing

  /** A font's cells, each an arbitrary bit matrix of the font's size. */
  datatype Font = Font(width: U16, height: U16, ink: (char, int, int) -> bool)

  /** Pixel for pixel, `after` is `before` with the pixels of `area` coloured by `black`. */
  ghost predicate Painted(before: Buffer, after: Buffer, area: Rect, black: (int, int) -> bool) {
    forall px, py :: 0 <= px < WIDTH && 0 <= py < HEIGHT ==>
      (Black(after, px, py) <==> if area.Contains(px, py) then black(px, py) else Black(before, px, py))
  }

  /** Only bytes of `box` changed. */
  ghost predicate BytesWithin(before: Buffer, after: Buffer, box: Box) {
    forall bx, y :: 0 <= bx < BYTES_PER_ROW && 0 <= y < HEIGHT && !InBox(box, bx, y) ==>
      At(after, bx, y) == At(before, bx, y)
  }

  /** The pixel span widened to whole bytes. */
  function Widened(x: U16, y: U16, xEnd: U16, yEnd: U16): Box
    requires x <= xEnd <= WIDTH && y <= yEnd <= HEIGHT
  {
    Box(x / 8 * 8, y, (xEnd + 7) / 8 * 8, yEnd)
  }

  /** Exactly the bytes of the span's pixels. */
  lemma WidenedIsSmallest(x: U16, y: U16, xEnd: U16, yEnd: U16, bx: nat, row: nat)
    requires x < xEnd <= WIDTH && y <= yEnd <= HEIGHT
    ensures InBox(Widened(x, y, xEnd, yEnd), bx, row) <==>
              y <= row < yEnd && exists px :: x <= px < xEnd && px / 8 == bx
  {
    if InBox(Widened(x, y, xEnd, yEnd), bx, row) {
      var px := if bx * 8 < x then x as int else bx * 8;
      assert x <= px < xEnd && px / 8 == bx;
    }
  }

  /** The dirty box once the part of `area` on screen is drawn. */
  function Marked(dirty: Option<Box>, area: Rect): Option<Box> {
    var r := area.Intersect(SCREEN);
    if r.IsEmpty() then dirty else Some(Join(dirty, Widened(r.x, r.y, r.Right(), r.Bottom())))
  }

  /** The byte of every pixel drawn is in it, changed or not, and so is all that was in it before. */
  lemma MarkedCovers(dirty: Option<Box>, area: Rect)
    ensures forall px, py :: area.Contains(px, py) && SCREEN.Contains(px, py) ==>
              InDirty(Marked(dirty, area), px / 8, py)
    ensures forall bx, y :: InDirty(dirty, bx, y) ==> InDirty(Marked(dirty, area), bx, y)
  {
    IntersectIsIntersection(area, SCREEN);
    var r := area.Intersect(SCREEN);
    forall px, py | area.Contains(px, py) && SCREEN.Contains(px, py)
      ensures InDirty(Marked(dirty, area), px / 8, py)
    {
      assert r.Contains(px, py);
    }
  }

  /** The pixels of the screen in `area` are those of its part on screen. */
  lemma OnScreenPart(area: Rect)
    ensures var r := area.Intersect(SCREEN);
            && (!r.IsEmpty() ==> r.x + r.w <= WIDTH && r.y + r.h <= HEIGHT)
            && (forall px, py :: 0 <= px < WIDTH && 0 <= py < HEIGHT ==>
                  (area.Contains(px, py) <==> r.Contains(px, py)))
  {
    IntersectIsIntersection(area, SCREEN);
  }

  lemma PaintingDraws(s: Fb, t: Fb, box: Box)
    requires ValidFb(s) && WellFormed(box)
    requires t == s.(desired := t.desired, dirty := Some(Join(s.dirty, box)))
    requires BytesWithin(s.desired, t.desired, box)
    ensures Draws(s, t)
  {
  }

  class FrameBuffer {
    const desired: array<Byte>
    const committed: array<Byte>
    var dirty: Option<Box>
    var known: bool
    var inFlight: Option<Flush>

    ghost predicate Valid()
      reads this, desired, committed
    {
      && desired.Length == BUF_LEN && committed.Length == BUF_LEN && desired != committed
      && ValidFb(Value())
    }

    ghost function Value(): Fb
      reads this, desired, committed
      requires desired.Length == BUF_LEN && committed.Length == BUF_LEN
    {
      Fb(desired[..], committed[..], dirty, known, inFlight)
    }

    constructor ()
      ensures Valid() && Value() == Boot()
      ensures fresh(desired) && fresh(committed)
    {
      desired := new Byte[BUF_LEN](_ => 0xFF);
      committed := new Byte[BUF_LEN](_ => 0xFF);
      dirty, known, inFlight := None, false, None;
    }

    method BeginFlush() returns (flush: Option<Flush>)
      requires Valid()
      modifies this`dirty, this`inFlight
      ensures Valid() && Begins(old(Value()), Value(), flush)
    {
      if inFlight.Some? {
        return None;
      }
      if known {
        if dirty.None? {
          return None;
        }
        var box := dirty.value;
        dirty := None;
        var found := ChangedWithin(box);
        if found.None? {
          return None;
        }
        var data := ExtractRegion(found.value);
        flush := Some(Partial(Region(found.value, data)));
      } else {
        dirty := None;
        flush := Some(Full(desired[..]));
      }
      inFlight := flush;
    }

    method FinishFlush(ok: bool)
      requires Valid()
      modifies this`known, this`inFlight, committed
      ensures Valid() && Value() == EndFlush(old(Value()), ok)
    {
      if inFlight.None? {
        return;
      }
      var flush := inFlight.value;
      inFlight := None;
      if !ok {
        known := false;
        return;
      }
      match flush {
        case Full(bytes) =>
          forall i | 0 <= i < BUF_LEN {
            committed[i] := bytes[i];
          }
          assert committed[..] == bytes;
          known := true;
        case Partial(r) =>
          WriteCommitted(r);
      }
    }

    method Invalidate()
      requires Valid()
      modifies this`known
      ensures Valid() && Value() == Invalidated(old(Value()))
    {
      known := false;
    }

    /** The smallest whole-byte rectangle within `box` where the pictures differ. */
    method ChangedWithin(box: Box) returns (r: Option<Rect>)
      requires Valid() && WellFormed(box)
      ensures r.None? ==> NoChange(desired[..], committed[..], box)
      ensures r.Some? ==> Tight(desired[..], committed[..], box, r.value)
    {
      var found := Search(box);
      if found.None? {
        SearchedNothing(desired[..], committed[..], box);
        return None;
      }
      SpansTight(desired[..], committed[..], box, found.value);
      r := Some(Enclosing(found.value));
    }

    function ChangedAt(bx: nat, y: nat): (changed: bool)
      requires Valid() && bx < BYTES_PER_ROW && y < HEIGHT
      reads this, desired, committed
      ensures changed == Differs(desired[..], committed[..], bx, y)
    {
      var i := y * BYTES_PER_ROW + bx;
      desired[i] != committed[i]
    }

    method Search(box: Box) returns (found: Option<Extent>)
      requires Valid() && WellFormed(box)
      ensures Progress(desired[..], committed[..], box, found, 0, box.y1)
    {
      var bx0, bx1 := box.x0 / 8, box.x1 / 8;
      found := None;
      ghost var u, v := desired[..], committed[..];
      for y := box.y0 to box.y1
        invariant Progress(u, v, box, found, 0, y)
      {
        ProgressBegins(u, v, box, found, y);
        for bx := bx0 to bx1
          invariant Progress(u, v, box, found, bx, y)
        {
          ProgressNext(u, v, box, found, bx, y);
          if ChangedAt(bx, y) {
            found := Some(Grown(found, bx, y));
          }
        }
        ProgressRow(u, v, box, found, y);
      }
    }

    method ExtractRegion(r: Rect) returns (data: seq<Byte>)
      requires Valid() && OnBytes(r)
      ensures data == Extracted(desired[..], r.x / 8, r.y, r.w / 8, r.h)
    {
      var bytesW, xByte := r.w / 8, r.x / 8;
      data := [];
      for row := 0 to r.h
        invariant data == Extracted(desired[..], xByte, r.y, bytesW, row)
      {
        var start := (r.y + row) * BYTES_PER_ROW + xByte;
        data := data + desired[start..start + bytesW];
      }
    }

    method WriteCommitted(r: Region)
      requires Valid() && ValidRegion(r)
      modifies committed
      ensures Valid()
      ensures committed[..] == Patched(old(committed[..]), Partial(r))
    {
      var bytesW, xByte := r.rect.w / 8, r.rect.x / 8;
      ghost var before := committed[..];
      for row := 0 to r.rect.h
        invariant row * bytesW <= |r.data|
        invariant committed[..] == Written(before, r.data, xByte, r.rect.y, bytesW, row)
      {
        RowFits(row, r.rect.h, bytesW);
        WriteRow(before, r.data, xByte, r.rect.y, bytesW, row);
      }
    }

    method WriteRow(ghost before: Buffer, data: seq<Byte>, xByte: nat, y: nat, bytesW: nat, row: nat)
      requires committed.Length == BUF_LEN && xByte + bytesW <= BYTES_PER_ROW && y + row < HEIGHT
      requires row * bytesW + bytesW == (row + 1) * bytesW <= |data|
      requires committed[..] == Written(before, data, xByte, y, bytesW, row)
      modifies committed
      ensures committed[..] == Written(before, data, xByte, y, bytesW, row + 1)
    {
      WrittenNext(before, data, xByte, y, bytesW, row);
      CopyRow((y + row) * BYTES_PER_ROW + xByte, data[row * bytesW..(row + 1) * bytesW]);
    }

    method CopyRow(at: nat, bytes: seq<Byte>)
      requires committed.Length == BUF_LEN && at + |bytes| <= BUF_LEN
      modifies committed
      ensures committed[..] == old(committed[..])[..at] + bytes + old(committed[..])[at + |bytes|..]
    {
      forall k | 0 <= k < |bytes| {
        committed[at + k] := bytes[k];
      }
    }

    /** Set one pixel; `on` is black. */
    method SetPixel(x: U16, y: U16, on: bool)
      requires Valid() && x < WIDTH && y < HEIGHT
      modifies desired
      ensures Valid()
      ensures Plotted(old(desired[..]), desired[..], x, y, on)
      ensures forall i :: 0 <= i < BUF_LEN && i != y * 30 + x / 8 ==> desired[i] == old(desired[i])
      ensures DigitWritten(old(desired[y * 30 + x / 8]), desired[y * 30 + x / 8], x % 8, on)
    {
      var i := y * BYTES_PER_ROW + x / 8;
      var b := WithBit(desired[i], x % 8, on);
      WithBitWritesDigit(desired[i], x % 8, on);
      BytePlotted(desired[..], desired[..][i := b], x, y, on);
      desired[i] := b;
      assert desired[..] == old(desired[..])[i := b];
    }

    method MarkDirty(box: Box)
      requires WellFormed(box)
      modifies this`dirty
      ensures dirty == Some(Join(old(dirty), box))
    {
      match dirty {
        case Some(d) =>
          dirty := Some(Box(Min(d.x0, box.x0), Min(d.y0, box.y0), Max(d.x1, box.x1), Max(d.y1, box.y1)));
        case None =>
          dirty := Some(box);
      }
    }

    method MarkDirtyUnaligned(x: U16, y: U16, xEnd: U16, yEnd: U16)
      requires x <= xEnd <= WIDTH && y <= yEnd <= HEIGHT
      modifies this`dirty
      ensures dirty == Some(Join(old(dirty), Widened(x, y, xEnd, yEnd)))
    {
      var alignedX := x / 8 * 8;
      var alignedEnd := (xEnd + 7) / 8 * 8;
      MarkDirty(Box(alignedX, y, alignedEnd, yEnd));
    }

    /** Fill a rectangle, which may be unaligned or reach beyond the screen. */
    method FillRect(x: U16, y: U16, w: U16, h: U16, on: bool)
      requires Valid()
      modifies this`dirty, desired
      ensures Valid() && Draws(old(Value()), Value())
      ensures Painted(old(desired[..]), desired[..], Rect(x, y, w, h), (_, _) => on)
      ensures dirty == Marked(old(dirty), Rect(x, y, w, h))
    {
      if w == 0 || h == 0 || x >= WIDTH || y >= HEIGHT {
        return;
      }
      var xEnd := Min(SatAdd(x, w), WIDTH);
      var yEnd := Min(SatAdd(y, h), HEIGHT);
      PaintPixels(Rect(x, y, xEnd - x, yEnd - y), (_, _) => on);
      MarkDirtyUnaligned(x, y, xEnd, yEnd);
      PaintingDraws(old(Value()), Value(), Widened(x, y, xEnd, yEnd));
    }

    /** Draw one character cell with its top-left corner at `x, y`, touching only pixels inside `clip`. */
    method DrawGlyphClipped(x: U16, y: U16, font: Font, ch: char, black: bool, clip: Rect)
      requires Valid()
      modifies this`dirty, desired
      ensures Valid() && Draws(old(Value()), Value())
      ensures Painted(old(desired[..]), desired[..], Rect(x, y, font.width, font.height).Intersect(clip),
                      (px, py) => font.ink(ch, px - x, py - y) == black)
      ensures dirty == Marked(old(dirty), Rect(x, y, font.width, font.height).Intersect(clip))
    {
      var area := Rect(x, y, font.width, font.height).Intersect(clip).Intersect(SCREEN);
      OnScreenPart(Rect(x, y, font.width, font.height).Intersect(clip));
      if area.IsEmpty() {
        return;
      }
      PaintPixels(area, (px, py) => font.ink(ch, px - x, py - y) == black);
      MarkDirtyUnaligned(area.x, area.y, area.Right(), area.Bottom());
      PaintingDraws(old(Value()), Value(), Widened(area.x, area.y, area.Right(), area.Bottom()));
    }

    /** The pixel loops of filling and of drawing a glyph. */
    method PaintPixels(area: Rect, black: (int, int) -> bool)
      requires Valid() && area.x + area.w <= WIDTH && area.y + area.h <= HEIGHT
      modifies desired
      ensures Valid()
      ensures Painted(old(desired[..]), desired[..], area, black)
      ensures BytesWithin(old(desired[..]), desired[..], Widened(area.x, area.y, area.Right(), area.Bottom()))
    {
      ghost var before := desired[..];
      for py := area.y to area.Bottom()
        invariant Valid()
        invariant PaintedUpTo(before, desired[..], area, black, area.x, py)
      {
        for px := area.x to area.Right()
          invariant Valid()
          invariant PaintedUpTo(before, desired[..], area, black, px, py)
        {
          ghost var mid := desired[..];
          SetPixel(px, py, black(px, py));
          NextPixelPainted(before, mid, desired[..], area, black, px, py);
        }
      }
    }

    method ClearAllDesired()
      requires Valid()
      modifies this`dirty, desired
      ensures Valid() && Draws(old(Value()), Value()) && desired[..] == Blank()
      ensures dirty == Some(Join(old(dirty), Box(0, 0, WIDTH, HEIGHT)))
    {
      forall i | 0 <= i < BUF_LEN {
        desired[i] := 0xFF;
      }
      MarkDirty(Box(0, 0, WIDTH, HEIGHT));
    }
  }

  /** `after` is `before` with one pixel coloured. */
  ghost predicate Plotted(before: Buffer, after: Buffer, x: U16, y: U16, on: bool)
    requires x < WIDTH && y < HEIGHT
  {
    && (forall px, py :: 0 <= px < WIDTH && 0 <= py < HEIGHT ==>
          (Black(after, px, py) <==> if px == x && py == y then on else Black(before, px, py)))
    && (forall bx, cy :: 0 <= bx < BYTES_PER_ROW && 0 <= cy < HEIGHT && (bx != x / 8 || cy != y) ==>
          At(after, bx, cy) == At(before, bx, cy))
  }

  lemma BytePlotted(before: Buffer, after: Buffer, x: U16, y: U16, on: bool)
    requires x < WIDTH && y < HEIGHT
    requires after == before[y * BYTES_PER_ROW + x / 8 := WithBit(At(before, x / 8, y), x % 8, on)]
    ensures Plotted(before, after, x, y, on)
  {
    forall bx, cy | 0 <= bx < BYTES_PER_ROW && 0 <= cy < HEIGHT && (bx != x / 8 || cy != y)
      ensures At(after, bx, cy) == At(before, bx, cy)
    {
      ByteIndexInjective(bx, cy, x / 8, y);
    }
    forall px, py | 0 <= px < WIDTH && 0 <= py < HEIGHT
      ensures Black(after, px, py) <==> if px == x && py == y then on else Black(before, px, py)
    {
      if px / 8 == x / 8 && py == y {
        WithBitSetsOne(At(before, x / 8, y), x % 8, px % 8, on);
      }
    }
  }

  /** The pixels of `area` above row `y`, and left of `x` in row `y`, are painted; no other has changed. */
  ghost predicate PaintedUpTo(before: Buffer, after: Buffer, area: Rect, black: (int, int) -> bool, x: nat, y: nat)
    requires area.x + area.w <= WIDTH && area.y + area.h <= HEIGHT
  {
    && (forall px, py :: 0 <= px < WIDTH && 0 <= py < HEIGHT ==>
          (Black(after, px, py) <==>
           if area.Contains(px, py) && (py < y || (py == y && px < x)) then black(px, py) else Black(before, px, py)))
    && BytesWithin(before, after, Widened(area.x, area.y, area.Right(), area.Bottom()))
  }

  lemma NextPixelPainted(before: Buffer, mid: Buffer, after: Buffer, area: Rect, black: (int, int) -> bool,
                         x: U16, y: U16)
    requires area.x + area.w <= WIDTH && area.y + area.h <= HEIGHT && area.Contains(x, y)
    requires PaintedUpTo(before, mid, area, black, x, y) && Plotted(mid, after, x, y, black(x, y))
    ensures PaintedUpTo(before, after, area, black, x + 1, y)
  {
  }

  lemma RowFits(row: nat, h: nat, bw: nat)
    requires row < h
    ensures row * bw + bw == (row + 1) * bw <= h * bw
  {
  }

  /** Byte columns `a..c` and rows `b..d`, both ends included. */
  datatype Extent = Extent(a: nat, b: nat, c: nat, d: nat)

  /** The extent in pixels. */
  function Enclosing(e: Extent): Rect
    requires e.a <= e.c < BYTES_PER_ROW && e.b <= e.d < HEIGHT
  {
    Rect(e.a * 8, e.b, (e.c - e.a + 1) * 8, e.d - e.b + 1)
  }

  function Grown(found: Option<Extent>, bx: nat, y: nat): Extent {
    match found
    case None => Extent(bx, y, bx, y)
    case Some(e) => Extent(Min(e.a, bx), Min(e.b, y), Max(e.c, bx), Max(e.d, y))
  }

  /** `e` lies within `box` and each of its edges holds a changed byte. */
  ghost predicate Spans(u: Buffer, v: Buffer, box: Box, e: Extent) {
    && box.x0 / 8 <= e.a <= e.c < box.x1 / 8 && box.y0 <= e.b <= e.d < box.y1
    && ChangedInColumn(u, v, e.a, e.b, e.d + 1) && ChangedInColumn(u, v, e.c, e.b, e.d + 1)
    && ChangedInRow(u, v, e.b, e.a, e.c + 1) && ChangedInRow(u, v, e.d, e.a, e.c + 1)
  }

  /** Every change in the rows of `box` above `y`, and left of `bx` in row `y`, is within `found`. */
  ghost predicate Searched(u: Buffer, v: Buffer, box: Box, found: Option<Extent>, bx: nat, y: nat) {
    forall cx, cy ::
      0 <= cx < BYTES_PER_ROW && 0 <= cy < HEIGHT && InBox(box, cx, cy) && (cy < y || (cy == y && cx < bx))
      && Differs(u, v, cx, cy) ==>
        found.Some? && found.value.a <= cx <= found.value.c && found.value.b <= cy <= found.value.d
  }

  lemma ColumnWidens(u: Buffer, v: Buffer, bx: nat, y0: nat, y1: nat, z0: nat, z1: nat)
    requires ChangedInColumn(u, v, bx, y0, y1) && z0 <= y0 && y1 <= z1
    ensures ChangedInColumn(u, v, bx, z0, z1)
  {
  }

  lemma RowWidens(u: Buffer, v: Buffer, y: nat, b0: nat, b1: nat, c0: nat, c1: nat)
    requires ChangedInRow(u, v, y, b0, b1) && c0 <= b0 && b1 <= c1
    ensures ChangedInRow(u, v, y, c0, c1)
  {
  }

  /** What is found so far spans changes only, and all changes searched so far. */
  ghost predicate Progress(u: Buffer, v: Buffer, box: Box, found: Option<Extent>, bx: nat, y: nat) {
    (found.Some? ==> Spans(u, v, box, found.value)) && Searched(u, v, box, found, bx, y)
  }

  lemma ProgressNext(u: Buffer, v: Buffer, box: Box, found: Option<Extent>, bx: nat, y: nat)
    requires WellFormed(box) && InBox(box, bx, y) && Progress(u, v, box, found, bx, y)
    ensures Progress(u, v, box, if Differs(u, v, bx, y) then Some(Grown(found, bx, y)) else found, bx + 1, y)
  {
    if Differs(u, v, bx, y) {
      GrownSpans(u, v, box, found, bx, y);
    }
  }

  lemma ProgressBegins(u: Buffer, v: Buffer, box: Box, found: Option<Extent>, y: nat)
    requires Progress(u, v, box, found, 0, y)
    ensures Progress(u, v, box, found, box.x0 / 8, y)
  {
  }

  lemma ProgressRow(u: Buffer, v: Buffer, box: Box, found: Option<Extent>, y: nat)
    requires WellFormed(box) && Progress(u, v, box, found, box.x1 / 8, y)
    ensures Progress(u, v, box, found, 0, y + 1)
  {
  }

  lemma GrownSpans(u: Buffer, v: Buffer, box: Box, found: Option<Extent>, bx: nat, y: nat)
    requires WellFormed(box) && InBox(box, bx, y) && Differs(u, v, bx, y)
    requires found.Some? ==> Spans(u, v, box, found.value)
    ensures Spans(u, v, box, Grown(found, bx, y))
  {
    var g := Grown(found, bx, y);
    ColumnWidens(u, v, bx, y, y + 1, g.b, g.d + 1);
    RowWidens(u, v, y, bx, bx + 1, g.a, g.c + 1);
    if found.Some? {
      var e := found.value;
      ColumnWidens(u, v, e.a, e.b, e.d + 1, g.b, g.d + 1);
      ColumnWidens(u, v, e.c, e.b, e.d + 1, g.b, g.d + 1);
      RowWidens(u, v, e.b, e.a, e.c + 1, g.a, g.c + 1);
      RowWidens(u, v, e.d, e.a, e.c + 1, g.a, g.c + 1);
    }
  }

  lemma SpansTight(u: Buffer, v: Buffer, box: Box, e: Extent)
    requires WellFormed(box) && Spans(u, v, box, e) && Searched(u, v, box, Some(e), 0, box.y1)
    ensures e.c < BYTES_PER_ROW && e.d < HEIGHT && Tight(u, v, box, Enclosing(e))
  {
  }

  lemma SearchedNothing(u: Buffer, v: Buffer, box: Box)
    requires WellFormed(box) && Searched(u, v, box, None, 0, box.y1)
    ensures NoChange(u, v, box)
  {
  }
}
