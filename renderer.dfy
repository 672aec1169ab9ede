/** `Renderer` of render.py without pygame: the offset that centres the
    tiles' top-left corners on the screen, the frame of an animation to show, and the bridges to
    draw. */
module Rendering {
  import opened Wrappers
  import opened PyArith
  import opened Sprites
  import opened Bridges

  /** `Renderer.WIDTH` and `Renderer.HEIGHT`: the window size in pixels. */
  const Width := 1920
  const Height := 1080

  /** `min(s)`. */
  function MinOf(s: seq<int>): (m: int)
    requires |s| > 0
    ensures m in s && forall k :: 0 <= k < |s| ==> m <= s[k]
  {
    if |s| == 1 then s[0] else var rest := MinOf(s[1..]); if s[0] <= rest then s[0] else rest
  }

  /** `max(s)`. */
  function MaxOf(s: seq<int>): (m: int)
    requires |s| > 0
    ensures m in s && forall k :: 0 <= k < |s| ==> s[k] <= m
  {
    if |s| == 1 then s[0] else var rest := MaxOf(s[1..]); if s[0] >= rest then s[0] else rest
  }

  /** `screen // 2 - (lo + hi) // 2`: the shift that puts the middle of
      `[lo, hi]` in the middle of the screen. */
  function CenteringOffset(screen: int, lo: int, hi: int): int {
    FloorDiv(screen, 2) - FloorDiv(lo + hi, 2)
  }

  /** After the shift, the margins left of `lo` and right of `hi` differ
      only by the parities of the screen size and of `lo + hi`. */
  lemma OffsetCentres(screen: int, lo: int, hi: int)
    ensures var off := CenteringOffset(screen, lo, hi);
      (screen - (hi + off)) - (lo + off) == FloorMod(screen, 2) - FloorMod(lo + hi, 2)
  {
  }

  /** On the window, whose sides are even, the margins are equal, or the
      right one is one pixel smaller when `lo + hi` is odd. */
  lemma OffsetCentresWindow(lo: int, hi: int)
    ensures var off := CenteringOffset(Width, lo, hi);
      0 <= (lo + off) - (Width - (hi + off)) <= 1
    ensures var off := CenteringOffset(Height, lo, hi);
      0 <= (lo + off) - (Height - (hi + off)) <= 1
  {
    OffsetCentres(Width, lo, hi);
    OffsetCentres(Height, lo, hi);
  }

  /** Each tile is drawn `size` pixels wide (or high) from its corner, so
      the drawn map spans `[lo, hi + size]`, not `[lo, hi]`: on the window
      its left (top) margin exceeds its right (bottom) margin by the tile
      size, plus one when `lo + hi` is odd. The map sits half a tile right
      of and below the centre. */
  lemma DrawnMapOffCentre(lo: int, hi: int, size: int)
    ensures var off := CenteringOffset(Width, lo, hi);
      (lo + off) - (Width - (hi + size + off)) == size + FloorMod(lo + hi, 2)
    ensures var off := CenteringOffset(Height, lo, hi);
      (lo + off) - (Height - (hi + size + off)) == size + FloorMod(lo + hi, 2)
  {
    OffsetCentres(Width, lo, hi);
    OffsetCentres(Height, lo, hi);
  }

  /** Moving the whole map by `k` pixels moves the offset by `-k`: what is
      drawn stays where it was. */
  lemma {:induction false} OffsetTranslates(screen: int, lo: int, hi: int, k: int)
    ensures CenteringOffset(screen, lo + k, hi + k) == CenteringOffset(screen, lo, hi) - k
  {
    var q := FloorDiv(lo + hi, 2);
    assert lo + k + hi + k == 2 * (q + k) + FloorMod(lo + hi, 2);
    FloorDivUnique(lo + k + hi + k, 2, q + k, FloorMod(lo + hi, 2));
  }

  /** The pixel columns (`axis` 0) or rows (`axis` 1) of the zones' tiles:
      coordinate times the tile width. */
  function Scaled(zones: seq<Zone>, tileW: int, axis: nat): (s: seq<int>)
    requires axis < 2
    ensures |s| == |zones|
  {
    seq(|zones|, k requires 0 <= k < |zones| => (if axis == 0 then zones[k].coordinates.0 else zones[k].coordinates.1) * tileW)
  }

  /** `min()` of an empty sequence raises `ValueError`. */
  datatype OffsetError = EmptyMap

  class Renderer {
    var island: Sprite
    var offsetX: int
    var offsetY: int
    var currentTime: int

    constructor (island: Sprite)
      ensures this.island == island && offsetX == 0 && offsetY == 0 && currentTime == 0
    {
      this.island := island;
      offsetX := 0;
      offsetY := 0;
      currentTime := 0;
    }

    /** `_compute_offset`: the offsets that centre the tiles' bounding box
        on the window. */
    method ComputeOffset(zones: seq<Zone>) returns (r: Result<(), OffsetError>)
      modifies this`offsetX, this`offsetY
      ensures zones == [] ==> r == Err(EmptyMap) && offsetX == old(offsetX) && offsetY == old(offsetY)
      ensures zones != [] ==> (r.Ok? &&
        offsetX == CenteringOffset(Width, MinOf(Scaled(zones, island.width, 0)), MaxOf(Scaled(zones, island.width, 0))) &&
        offsetY == CenteringOffset(Height, MinOf(Scaled(zones, island.width, 1)), MaxOf(Scaled(zones, island.width, 1))))
    {
      var tileW := island.width;
      var xs := Scaled(zones, tileW, 0);
      var ys := Scaled(zones, tileW, 1);
      if zones == [] {
        return Err(EmptyMap);
      }
      offsetX := CenteringOffset(Width, MinOf(xs), MaxOf(xs));
      offsetY := CenteringOffset(Height, MinOf(ys), MaxOf(ys));
      r := Ok(());
    }

    /** `_get_current_sprite`: the frame of `sprite` to show now. */
    function CurrentSprite(sprite: Sprite, animation: int): (r: Result<Rect, SpriteError>)
      reads this, sprite
      ensures sprite.numFrames == 0 || animation == 0 ==> r == Err(ZeroDivision)
      ensures r.Ok? ==> r.value in sprite.frames
    {
      match FrameIndex(currentTime, animation, sprite.numFrames)
      case Err(e) => Err(e)
      case Ok(i) => Pick(sprite.frames, i)
    }

    /** The geometry `_render_bridges` computes from the island tile and the
        offsets. */
    function BridgeGeometry(): Geometry
      reads this, island
    {
      Geometry(island.width, FloorDiv(island.width, 2), FloorDiv(island.height, 2), offsetX, offsetY)
    }

    /** `_render_bridges`: the bridges drawn, in order, or the failure. */
    method RenderBridges(zones: seq<Zone>, conns: map<string, Adjacency>) returns (r: Result<seq<Bridge>, RenderFailure>)
      ensures r == DrawBridges(BridgeGeometry(), zones, conns)
    {
      var g := BridgeGeometry();
      var drawn: set<(string, string)> := {};
      var bridges: seq<Bridge> := [];
      var i := 0;
      while i < |zones|
        invariant 0 <= i <= |zones|
        invariant VisitZones(g, zones, conns, i, drawn, bridges) == DrawBridges(g, zones, conns)
      {
        var zone := zones[i];
        if zone.zoneType.None? {
          return Err(MissingMetadata(zone.name));
        }
        if IsBlocked(zone) {
          i := i + 1;
          continue;
        }
        if zone.name !in conns {
          return Err(MissingAdjacency(zone.name));
        }
        var neighbours := NeighboursOf(conns[zone.name]);
        var k := 0;
        while k < |neighbours|
          invariant 0 <= k <= |neighbours|
          invariant Resume(g, zones, conns, i + 1, VisitNeighbours(g, zones, zone, neighbours[k..], drawn, bridges))
            == DrawBridges(g, zones, conns)
        {
          var neighbour := neighbours[k];
          assert neighbours[k..][0] == neighbour && neighbours[k..][1..] == neighbours[k + 1..];
          var found := Lookup(zones, neighbour);
          if found.None? {
            return Err(UnknownNeighbour(neighbour));
          }
          var other := found.value;
          if other.zoneType.None? {
            return Err(MissingMetadata(other.name));
          }
          if !IsBlocked(other) {
            var pair := SortedPair(zone.name, neighbour);
            if pair !in drawn {
              bridges := bridges + [Bridge(pair, Centre(g, zone.coordinates), Centre(g, other.coordinates))];
              drawn := drawn + {pair};
            }
          }
          k := k + 1;
        }
        i := i + 1;
      }
      r := Ok(bridges);
    }
  }

  /** The outer loop resumed at zone `i` once the inner loop has ended. */
  function Resume(g: Geometry, zones: seq<Zone>, conns: map<string, Adjacency>, i: nat,
                  inner: Result<(set<(string, string)>, seq<Bridge>), RenderFailure>): Result<seq<Bridge>, RenderFailure>
    requires i <= |zones|
  {
    match inner
    case Err(e) => Err(e)
    case Ok((d, a)) => VisitZones(g, zones, conns, i, d, a)
  }

  /** Once the frames are cut, the frame shown is frame
      `(time // animation) % n` of the sheet. */
  lemma CurrentSpritePrepared(r: Renderer, sprite: Sprite, animation: int)
    requires sprite.numFrames > 0 && animation != 0
    requires sprite.frames == FrameRects(sprite.width, sprite.height, sprite.numFrames)
    ensures FrameIndex(r.currentTime, animation, sprite.numFrames).Ok?
    ensures r.CurrentSprite(sprite, animation) ==
      Ok(FrameRect(sprite.width, sprite.height, sprite.numFrames, FrameIndex(r.currentTime, animation, sprite.numFrames).value))
  {
  }
}
