/**
 * Sprite drawing on the 64x32 monochrome display.
 *
 * A sprite is up to 15 bytes, one byte per row, eight pixels per row with the
 * most significant bit leftmost.  Drawing visits the rows in order and, in each
 * row, the eight columns in order; every lit sprite bit XOR-toggles one
 * display pixel, and the draw reports a collision when a toggled pixel was on.
 *
 * Wrap-around policy: the origin is taken modulo the screen size and every
 * pixel coordinate is wrapped again (x + col modulo 64, y + row modulo 32), so
 * no pixel index ever leaves the buffer.
 */
module Display {
  import opened Layout

  /** Columns per sprite row. */
  const SpriteWidth: nat := 8

  /** The largest sprite height an instruction can ask for (one nibble). */
  const MaxSpriteHeight: nat := 15

  /** The weight of column col's bit in a sprite row: 2 to the power 7 - col. */
  function ColumnWeight(col: nat): (w: nat)
    requires col < SpriteWidth
    ensures w > 0
  {
    match col
    case 0 => 0x80
    case 1 => 0x40
    case 2 => 0x20
    case 3 => 0x10
    case 4 => 0x08
    case 5 => 0x04
    case 6 => 0x02
    case _ => 0x01
  }

  /** Whether column col (0 = leftmost) of a sprite row is lit: bit 7 - col of the byte. */
  predicate SpriteBit(b: byte, col: nat)
    requires col < SpriteWidth
  {
    (b as bv8) & ((0x80 as bv8) >> col) != 0
  }

  /** The mask test reads one binary digit: column col is lit exactly when b / 2^(7 - col) is odd. */
  lemma SpriteBitWeight(b: byte, col: nat)
    requires col < SpriteWidth
    ensures SpriteBit(b, col) <==> b / ColumnWeight(col) % 2 == 1
  {
  }

  /** The display pixel that sprite cell (row, col) lands on, both coordinates wrapped. */
  function PixelIndex(xPos: nat, yPos: nat, row: nat, col: nat): (p: nat)
    ensures p < PixelCount
    ensures p / VideoWidth == (yPos + row) % VideoHeight && p % VideoWidth == (xPos + col) % VideoWidth
  {
    ((yPos + row) % VideoHeight) * VideoWidth + (xPos + col) % VideoWidth
  }

  /** The sprite row that would land on pixel p for a sprite drawn at row yPos. */
  function RowOf(p: nat, yPos: nat): nat
  {
    (p / VideoWidth - yPos) % VideoHeight
  }

  /** The sprite column that would land on pixel p for a sprite drawn at column xPos. */
  function ColOf(p: nat, xPos: nat): nat
  {
    (p % VideoWidth - xPos) % VideoWidth
  }

  /**
   * PixelIndex is a bijection between sprite cells and display pixels, and
   * RowOf/ColOf is its inverse.
   */
  lemma PixelIndexInverse(xPos: nat, yPos: nat, row: nat, col: nat, p: nat)
    requires xPos < VideoWidth && yPos < VideoHeight && row < VideoHeight && col < VideoWidth
    requires p < PixelCount
    ensures p == PixelIndex(xPos, yPos, row, col) <==> (RowOf(p, yPos) == row && ColOf(p, xPos) == col)
  {
    var q := PixelIndex(xPos, yPos, row, col);
    var a, b := p / VideoWidth, p % VideoWidth;
    assert p == a * VideoWidth + b;
    assert q == q / VideoWidth * VideoWidth + q % VideoWidth;
    if RowOf(p, yPos) == row && ColOf(p, xPos) == col {
      WrapBack(a, yPos, row, VideoHeight);
      WrapBack(b, xPos, col, VideoWidth);
    }
    if p == q {
      WrapForth(yPos, row, VideoHeight);
      WrapForth(xPos, col, VideoWidth);
    }
  }

  /** ((o + d) mod w - o) mod w == d for a displacement d already below w. */
  lemma WrapForth(o: nat, d: nat, w: nat)
    requires o < w && d < w
    ensures ((o + d) % w - o) % w == d
  {
    if o + d < w {
      assert (o + d) % w == o + d;
    } else {
      assert (o + d) % w == o + d - w;
      assert (o + d - w - o) == d - w;
      assert (d - w) % w == d;
    }
  }

  /** a mod w is determined by a and o: c == (a - o) mod w gives a == (o + c) mod w. */
  lemma WrapBack(a: nat, o: nat, c: nat, w: nat)
    requires a < w && o < w && c == (a - o) % w
    ensures a == (o + c) % w
  {
    if a >= o {
      assert c == a - o;
    } else {
      assert c == a - o + w;
      assert o + c == a + w;
    }
  }

  /**
   * The display after the first k steps of the drawing loop: step j visits
   * row j / 8 and column j % 8 and toggles that cell's pixel when its bit is lit.
   */
  function DrawSteps(video: seq<bool>, sprite: seq<byte>, xPos: nat, yPos: nat, k: nat): (r: seq<bool>)
    requires |video| == PixelCount && k <= SpriteWidth * |sprite|
    ensures |r| == PixelCount
    decreases k
  {
    if k == 0 then video
    else
      var v := DrawSteps(video, sprite, xPos, yPos, k - 1);
      var row, col := (k - 1) / SpriteWidth, (k - 1) % SpriteWidth;
      var q := PixelIndex(xPos, yPos, row, col);
      if SpriteBit(sprite[row], col) then v[q := !v[q]] else v
  }

  /** Whether one of the first k steps found its pixel already on when toggling it. */
  function CollisionSteps(video: seq<bool>, sprite: seq<byte>, xPos: nat, yPos: nat, k: nat): (c: bool)
    requires |video| == PixelCount && k <= SpriteWidth * |sprite|
    ensures k == 0 ==> !c
    decreases k
  {
    if k == 0 then false
    else
      var row, col := (k - 1) / SpriteWidth, (k - 1) % SpriteWidth;
      CollisionSteps(video, sprite, xPos, yPos, k - 1)
      || (SpriteBit(sprite[row], col) && DrawSteps(video, sprite, xPos, yPos, k - 1)[PixelIndex(xPos, yPos, row, col)])
  }

  /** Once a step has raised the collision flag, every later step keeps it raised. */
  lemma {:induction false} CollisionSticky(video: seq<bool>, sprite: seq<byte>, xPos: nat, yPos: nat, j: nat, k: nat)
    requires |video| == PixelCount && j <= k <= SpriteWidth * |sprite|
    ensures CollisionSteps(video, sprite, xPos, yPos, j) ==> CollisionSteps(video, sprite, xPos, yPos, k)
    decreases k
  {
    if j < k {
      CollisionSticky(video, sprite, xPos, yPos, j, k - 1);
    }
  }

  /** Visiting cell (row, col) is one more step of both prefixes. */
  lemma DrawCell(video: seq<bool>, sprite: seq<byte>, xPos: nat, yPos: nat, row: nat, col: nat)
    requires |video| == PixelCount && row < |sprite| && col < SpriteWidth
    ensures var k, q := SpriteWidth * row + col, PixelIndex(xPos, yPos, row, col);
            var v := DrawSteps(video, sprite, xPos, yPos, k);
            && DrawSteps(video, sprite, xPos, yPos, k + 1) == (if SpriteBit(sprite[row], col) then v[q := !v[q]] else v)
            && CollisionSteps(video, sprite, xPos, yPos, k + 1)
               == (CollisionSteps(video, sprite, xPos, yPos, k) || (SpriteBit(sprite[row], col) && v[q]))
  {
    var k := SpriteWidth * row + col;
    assert k / SpriteWidth == row && k % SpriteWidth == col;
  }

  /** Pixel p is hit by a lit sprite cell among the first k cells in drawing order. */
  predicate Lit(sprite: seq<byte>, xPos: nat, yPos: nat, p: nat, k: nat)
  {
    var row, col := RowOf(p, yPos), ColOf(p, xPos);
    row < |sprite| && col < SpriteWidth && row * SpriteWidth + col < k && SpriteBit(sprite[row], col)
  }

  /**
   * Closed form of the drawing loop: after k steps a pixel is flipped exactly
   * when a lit sprite cell among the first k lands on it; every other pixel
   * keeps its value.
   */
  lemma DrawStepsClosedForm(video: seq<bool>, sprite: seq<byte>, xPos: nat, yPos: nat, k: nat)
    requires |video| == PixelCount && |sprite| <= MaxSpriteHeight && xPos < VideoWidth && yPos < VideoHeight
    requires k <= SpriteWidth * |sprite|
    ensures forall p :: 0 <= p < PixelCount ==>
              DrawSteps(video, sprite, xPos, yPos, k)[p] == (video[p] != Lit(sprite, xPos, yPos, p, k))
  {
    forall p | 0 <= p < PixelCount
      ensures DrawSteps(video, sprite, xPos, yPos, k)[p] == (video[p] != Lit(sprite, xPos, yPos, p, k))
    {
      ClosedFormAt(video, sprite, xPos, yPos, k, p);
    }
  }

  /** The closed form for one pixel, by induction on the number of steps. */
  lemma {:induction false} ClosedFormAt(video: seq<bool>, sprite: seq<byte>, xPos: nat, yPos: nat, k: nat, p: nat)
    requires |video| == PixelCount && |sprite| <= MaxSpriteHeight && xPos < VideoWidth && yPos < VideoHeight
    requires k <= SpriteWidth * |sprite| && p < PixelCount
    ensures DrawSteps(video, sprite, xPos, yPos, k)[p] == (video[p] != Lit(sprite, xPos, yPos, p, k))
  {
    if k == 0 {
      assert !Lit(sprite, xPos, yPos, p, 0);
    } else {
      ClosedFormAt(video, sprite, xPos, yPos, k - 1, p);
      LitStep(sprite, xPos, yPos, p, k);
      var row, col := (k - 1) / SpriteWidth, (k - 1) % SpriteWidth;
      var q := PixelIndex(xPos, yPos, row, col);
      var prev := DrawSteps(video, sprite, xPos, yPos, k - 1);
      var lit := SpriteBit(sprite[row], col);
      var next := DrawSteps(video, sprite, xPos, yPos, k);
      assert next == if lit then prev[q := !prev[q]] else prev;
      if p == q {
        assert next[p] == (prev[p] != lit);
      } else {
        assert next[p] == prev[p];
      }
    }
  }

  /** Going from k - 1 to k steps adds exactly the cell of step k - 1 to the lit set. */
  lemma LitStep(sprite: seq<byte>, xPos: nat, yPos: nat, p: nat, k: nat)
    requires |sprite| <= MaxSpriteHeight && xPos < VideoWidth && yPos < VideoHeight
    requires 0 < k <= SpriteWidth * |sprite| && p < PixelCount
    ensures var row, col := (k - 1) / SpriteWidth, (k - 1) % SpriteWidth;
            Lit(sprite, xPos, yPos, p, k) ==
              if p == PixelIndex(xPos, yPos, row, col) then SpriteBit(sprite[row], col)
              else Lit(sprite, xPos, yPos, p, k - 1)
    ensures p == PixelIndex(xPos, yPos, (k - 1) / SpriteWidth, (k - 1) % SpriteWidth) ==> !Lit(sprite, xPos, yPos, p, k - 1)
  {
    var row, col := (k - 1) / SpriteWidth, (k - 1) % SpriteWidth;
    PixelIndexInverse(xPos, yPos, row, col, p);
  }

  /**
   * The collision flag after k steps is set exactly when some pixel hit by a
   * lit cell among the first k was on before the draw.
   */
  lemma {:induction false} CollisionMeaning(video: seq<bool>, sprite: seq<byte>, xPos: nat, yPos: nat, k: nat)
    requires |video| == PixelCount && |sprite| <= MaxSpriteHeight && xPos < VideoWidth && yPos < VideoHeight
    requires k <= SpriteWidth * |sprite|
    ensures CollisionSteps(video, sprite, xPos, yPos, k) <==>
              exists p :: 0 <= p < PixelCount && video[p] && Lit(sprite, xPos, yPos, p, k)
  {
    if k > 0 {
      CollisionMeaning(video, sprite, xPos, yPos, k - 1);
      DrawStepsClosedForm(video, sprite, xPos, yPos, k - 1);
      var row, col := (k - 1) / SpriteWidth, (k - 1) % SpriteWidth;
      var q := PixelIndex(xPos, yPos, row, col);
      LitStep(sprite, xPos, yPos, q, k);
      PixelIndexInverse(xPos, yPos, row, col, q);
      assert !Lit(sprite, xPos, yPos, q, k - 1);
      if CollisionSteps(video, sprite, xPos, yPos, k) {
        if CollisionSteps(video, sprite, xPos, yPos, k - 1) {
          var p :| 0 <= p < PixelCount && video[p] && Lit(sprite, xPos, yPos, p, k - 1);
          LitStep(sprite, xPos, yPos, p, k);
          assert video[p] && Lit(sprite, xPos, yPos, p, k);
        } else {
          assert video[q] && Lit(sprite, xPos, yPos, q, k);
        }
      } else {
        forall p | 0 <= p < PixelCount && video[p]
          ensures !Lit(sprite, xPos, yPos, p, k)
        {
          LitStep(sprite, xPos, yPos, p, k);
        }
      }
    }
  }

  /** Drawing the same sprite at the same place twice restores the display. */
  lemma DrawTwiceRestores(video: seq<bool>, sprite: seq<byte>, xPos: nat, yPos: nat)
    requires |video| == PixelCount && |sprite| <= MaxSpriteHeight && xPos < VideoWidth && yPos < VideoHeight
    ensures var k := SpriteWidth * |sprite|;
            DrawSteps(DrawSteps(video, sprite, xPos, yPos, k), sprite, xPos, yPos, k) == video
  {
    var k := SpriteWidth * |sprite|;
    var once := DrawSteps(video, sprite, xPos, yPos, k);
    DrawStepsClosedForm(video, sprite, xPos, yPos, k);
    DrawStepsClosedForm(once, sprite, xPos, yPos, k);
    assert forall p :: 0 <= p < PixelCount ==> DrawSteps(once, sprite, xPos, yPos, k)[p] == video[p];
  }

  /**
   * Each lit cell of the sprite flips its own pixel, and a pixel that no lit
   * cell lands on is left unchanged.
   */
  lemma DrawTogglesLitCells(video: seq<bool>, sprite: seq<byte>, xPos: nat, yPos: nat, row: nat, col: nat)
    requires |video| == PixelCount && |sprite| <= MaxSpriteHeight && xPos < VideoWidth && yPos < VideoHeight
    requires row < |sprite| && col < SpriteWidth
    ensures var k, p := SpriteWidth * |sprite|, PixelIndex(xPos, yPos, row, col);
            DrawSteps(video, sprite, xPos, yPos, k)[p] == (video[p] != SpriteBit(sprite[row], col))
  {
    var k, p := SpriteWidth * |sprite|, PixelIndex(xPos, yPos, row, col);
    DrawStepsClosedForm(video, sprite, xPos, yPos, k);
    PixelIndexInverse(xPos, yPos, row, col, p);
  }
}
