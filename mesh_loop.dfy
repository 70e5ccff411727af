/// The event loop of the RotatingMesh demo (src/RotatingMesh/main.cpp):
/// a value ramp driven by the space bar, which chooses the transition
/// polygon drawn as a prism, and the buffer upload that follows each
/// rebuild. Tick counts are SDL's 32-bit millisecond counter; the ramp's
/// float arithmetic is modelled over the reals.
module RotatingMeshLoop {
  import opened MeshBuilder

  /** A 32-bit unsigned tick count (SDL_GetTicks, event timestamps). */
  type Ticks = x: int | 0 <= x < 0x1_0000_0000

  /** Milliseconds from `start` to `now`, in 32-bit unsigned arithmetic:
      a `now` below `start` means the counter wrapped. */
  function Elapsed(start: Ticks, now: Ticks): (r: Ticks)
    ensures start <= now ==> r == now - start
    ensures now < start ==> r == now - start + 0x1_0000_0000
  {
    (now - start) % 0x1_0000_0000
  }

  function Min(a: real, b: real): real { if a <= b then a else b }
  function Max(a: real, b: real): real { if a <= b then b else a }

  /** v limited to [lo, hi]. */
  function Clamp(v: real, lo: real, hi: real): (r: real)
    requires lo <= hi
    ensures lo <= r <= hi
    ensures lo <= v <= hi ==> r == v
    ensures v < lo ==> r == lo
    ensures hi < v ==> r == hi
  {
    if v < lo then lo else if hi < v then hi else v
  }

  /** The demo's `Foo`: a value that starts at `startValue` at tick
      `startTimestamp` and moves by `factor` per millisecond, never leaving
      the interval between `startValue` and `endValue`. */
  datatype Ramp = Ramp(startTimestamp: Ticks, startValue: real, endValue: real, factor: real)

  /** Foo::value. */
  function RampValue(ramp: Ramp, now: Ticks): (r: real)
    ensures Min(ramp.startValue, ramp.endValue) <= r <= Max(ramp.startValue, ramp.endValue)
    ensures now == ramp.startTimestamp ==> r == ramp.startValue
    ensures ramp.factor == 0.0 ==> r == ramp.startValue
  {
    var delta := Elapsed(ramp.startTimestamp, now) as real;
    var value := delta * ramp.factor + ramp.startValue;
    Clamp(value, Min(ramp.startValue, ramp.endValue), Max(ramp.startValue, ramp.endValue))
  }

  /** A ramp whose factor points towards its end value reaches that end
      value once enough ticks have passed, and then stays there. */
  lemma RampReachesEnd(ramp: Ramp, now: Ticks)
    requires var moved := Elapsed(ramp.startTimestamp, now) as real * ramp.factor;
      || (ramp.endValue <= ramp.startValue && moved <= ramp.endValue - ramp.startValue)
      || (ramp.startValue <= ramp.endValue && moved >= ramp.endValue - ramp.startValue)
    ensures RampValue(ramp, now) == ramp.endValue
  {
  }

  /** A new ramp that continues from the current value of `ramp` at tick
      `now` (the assignments to `foo_` in on_event). */
  function Restart(ramp: Ramp, now: Ticks, target: real, factor: real): (r: Ramp)
    ensures RampValue(r, now) == RampValue(ramp, now)
    ensures r.endValue == target && r.factor == factor
  {
    Ramp(now, RampValue(ramp, now), target, factor)
  }

  /** Both bounds of a ramp lie in [3, 10]: the range of side counts. */
  predicate RampInRange(ramp: Ramp)
  {
    3.0 <= ramp.startValue <= 10.0 && 3.0 <= ramp.endValue <= 10.0
  }

  /** The value of a ramp within [3, 10] stays within [3, 10]. */
  lemma RampValueInRange(ramp: Ramp, now: Ticks)
    requires RampInRange(ramp)
    ensures 3.0 <= RampValue(ramp, now) <= 10.0
  {
  }

  const ShrinkTarget: real := 3.0
  const ShrinkFactor: real := -0.0005
  const GrowTarget: real := 10.0
  const GrowFactor: real := 0.0006

  /** Holding space shrinks the polygon from anywhere in [3, 10] down to the
      triangle in at most 14000 ms. */
  lemma ShrinkCompletes(ramp: Ramp, start: Ticks, now: Ticks)
    requires RampInRange(ramp)
    requires Elapsed(start, now) >= 14000
    ensures RampValue(Restart(ramp, start, ShrinkTarget, ShrinkFactor), now) == ShrinkTarget
  {
    var r := Restart(ramp, start, ShrinkTarget, ShrinkFactor);
    RampValueInRange(ramp, start);
    assert Elapsed(start, now) as real * ShrinkFactor <= 14000.0 * ShrinkFactor;
    RampReachesEnd(r, now);
  }

  /** Releasing space grows the polygon from anywhere in [3, 10] back to the
      decagon in at most 11667 ms. */
  lemma GrowCompletes(ramp: Ramp, start: Ticks, now: Ticks)
    requires RampInRange(ramp)
    requires Elapsed(start, now) >= 11667
    ensures RampValue(Restart(ramp, start, GrowTarget, GrowFactor), now) == GrowTarget
  {
    var r := Restart(ramp, start, GrowTarget, GrowFactor);
    RampValueInRange(ramp, start);
    assert Elapsed(start, now) as real * GrowFactor >= 11667.0 * GrowFactor;
    RampReachesEnd(r, now);
  }

  /** A ramp started just before the tick counter wraps still measures the
      short time that has passed, not a negative one. */
  lemma RampAcrossWrap()
    ensures Elapsed(0xFFFF_FF00, 0x100) == 0x200
    ensures RampValue(Ramp(0xFFFF_FF00, 10.0, 3.0, ShrinkFactor), 0x100) == 10.0 - 0x200 as real * 0.0005
  {
  }

  // ---------------------------------------------------------------------
  // Events
  // ---------------------------------------------------------------------

  const KeySpace: int := 32   // SDLK_SPACE
  const KeyP: int := 112      // SDLK_p

  datatype KeyAction = KeyDown | KeyUp

  /** The part of an SDL event the loop looks at. */
  datatype Event =
    | KeyEvent(action: KeyAction, sym: int, repeat: bool, timestamp: Ticks)
    | OtherEvent

  /** Whether on_event reports the event as handled. */
  predicate Handles(e: Event)
  {
    e.KeyEvent? && ((e.action == KeyUp && e.sym == KeyP) || e.sym == KeySpace)
  }

  /** Whether the event toggles the wireframe mode: releasing P. */
  predicate TogglesWireframe(e: Event)
  {
    e.KeyEvent? && e.action == KeyUp && e.sym == KeyP
  }

  /** The ramp after on_event: pressing space (not an auto-repeat) starts
      shrinking towards 3, releasing it starts growing towards 10, both from
      the value the ramp has at the event's timestamp. */
  function NextRamp(ramp: Ramp, e: Event): Ramp
  {
    if !e.KeyEvent? || e.sym != KeySpace then ramp
    else if e.action == KeyDown && !e.repeat then Restart(ramp, e.timestamp, ShrinkTarget, ShrinkFactor)
    else if e.action == KeyUp then Restart(ramp, e.timestamp, GrowTarget, GrowFactor)
    else ramp
  }

  /** Every event keeps both ramp bounds in [3, 10], and the ramp value is
      continuous across the event: at the event's timestamp the new ramp has
      the value the old one had. */
  lemma NextRampKeepsRange(ramp: Ramp, e: Event)
    requires RampInRange(ramp)
    ensures RampInRange(NextRamp(ramp, e))
    ensures e.KeyEvent? ==> RampValue(NextRamp(ramp, e), e.timestamp) == RampValue(ramp, e.timestamp)
  {
    if e.KeyEvent? {
      RampValueInRange(ramp, e.timestamp);
    }
  }

  /** Only space changes the ramp; auto-repeated presses do not restart it. */
  lemma NextRampOnlySpace(ramp: Ramp, e: Event)
    ensures NextRamp(ramp, e) != ramp ==> e.KeyEvent? && e.sym == KeySpace && !(e.action == KeyDown && e.repeat)
    ensures e.KeyEvent? && e.sym == KeySpace && e.action == KeyUp ==> NextRamp(ramp, e).endValue == GrowTarget
    ensures e.KeyEvent? && e.sym == KeySpace && e.action == KeyDown && !e.repeat ==> NextRamp(ramp, e).endValue == ShrinkTarget
  {
  }

  // ---------------------------------------------------------------------
  // Updates
  // ---------------------------------------------------------------------

  /** The integer part and the fraction modf splits a non-negative value into. */
  function IntPart(v: real): (r: nat)
    requires v >= 0.0
    ensures r as real <= v < r as real + 1.0
  {
    v.Floor
  }

  /** The number of sides of the polygon on_update builds for the value v:
      v rounded up. */
  lemma SidesForValue(v: real)
    requires 3.0 <= v <= 10.0
    ensures var n, f := IntPart(v), v - IntPart(v) as real;
      && TransitionDefined(n, f)
      && |TransitionPolygon(n, f)| == SideCount(n, f)
      && 3 <= SideCount(n, f) <= 10
      && SideCount(n, f) as real - 1.0 < v <= SideCount(n, f) as real
  {
    var n, f := IntPart(v), v - IntPart(v) as real;
    TransitionPolygonSize(n, f);
  }

  /** The prism on_update builds for a value in [3, 10] is a valid mesh of
      at most 40 faces, so its 3 rows per face fit in the GPU buffers. */
  lemma RebuildFits(v: real)
    requires 3.0 <= v <= 10.0
    ensures var n, f := IntPart(v), v - IntPart(v) as real;
      var m := PrismMesh(TransitionPolygon(n, f));
      && (n >= 1 || f >= 1.0)
      && 3 <= SideCount(n, f) <= 10
      && ValidMesh(m)
      && |m.vertexes| == 2 * SideCount(n, f) + 2
      && 3 * |m.faces| <= BufferCapacity
  {
    var n, f := IntPart(v), v - IntPart(v) as real;
    SidesForValue(v);
    PrismFits(TransitionPolygon(n, f));
  }

  lemma PrismFits(points: seq<Vec2>)
    requires |points| <= 10
    ensures ValidMesh(PrismMesh(points))
    ensures |PrismMesh(points).vertexes| == 2 * |points| + 2
    ensures 3 * |PrismMesh(points).faces| <= BufferCapacity
  {
    PrismMeshShape(points);
  }

  /** Rows (and indexes) the GPU buffers get at start-up: those of the decagon
      prism, the largest mesh the ramp ever asks for. */
  const BufferCapacity: nat := 120

  /** The side count of the polygon built at start-up. */
  const StartupSides: nat := 10

  /** The decagon prism built at start-up flattens to exactly the capacity. */
  lemma DecagonPrism()
    ensures TransitionPolygon(StartupSides, 0.0) == Polygon(StartupSides)
    ensures ValidMesh(PrismMesh(Polygon(StartupSides)))
    ensures 3 * |PrismMesh(Polygon(StartupSides)).faces| == BufferCapacity
    ensures |Flatten(PrismMesh(Polygon(StartupSides)), |PrismMesh(Polygon(StartupSides)).faces|)| == BufferCapacity
  {
    PrismMeshShape(Polygon(StartupSides));
    FlattenLength(PrismMesh(Polygon(StartupSides)), |PrismMesh(Polygon(StartupSides)).faces|);
  }

  /** The rows glDrawElements reads: the row each of the first `count`
      indexes names. */
  function Gathered(rows: seq<BufferPoint>, indexes: seq<int>, count: nat): seq<BufferPoint>
    requires count <= |indexes|
    requires forall i :: 0 <= i < count ==> 0 <= indexes[i] < |rows|
  {
    seq(count, i requires 0 <= i < count => rows[indexes[i]])
  }

  /** When the first `count` indexes are 0 .. count-1 and the first `count`
      rows are `expected`, drawing reads exactly `expected`. */
  lemma GatheredUpload(rows: seq<BufferPoint>, indexes: seq<int>, count: nat, expected: seq<BufferPoint>)
    requires count <= |rows| && count <= |indexes|
    requires rows[..count] == expected && indexes[..count] == Iota(count)
    ensures forall i :: 0 <= i < count ==> 0 <= indexes[i] < |rows|
    ensures Gathered(rows, indexes, count) == expected
  {
    forall i | 0 <= i < count
      ensures indexes[i] == i && rows[i] == expected[i]
    {
      assert indexes[i] == indexes[..count][i];
      assert rows[i] == rows[..count][i];
    }
  }

  /** The demo's event loop, with its GPU buffers as sequences of rows. */
  class MeshLoop {
    var ramp: Ramp
    var prevValue: real
    var drawWireframe: bool
    var mesh: Mesh
    var updateBuffer: bool
    var elementCount: int
    var started: bool
    var gpuRows: seq<BufferPoint>
    var gpuIndexes: seq<int>

    /** prev_value_ keeps its initial 10; the ramp stays in [3, 10]; once
        started, the GPU buffers have the start-up capacity, the mesh fits in
        them, and unless an upload is pending the first `elementCount`
        indexes and rows are exactly the flattened current mesh. */
    predicate Valid()
      reads this
    {
      && prevValue == 10.0
      && RampInRange(ramp)
      && ValidMesh(mesh)
      && 0 <= elementCount <= BufferCapacity
      && (!started ==> !updateBuffer)
      && (started ==>
            && |gpuRows| == BufferCapacity
            && |gpuIndexes| == BufferCapacity
            && 3 * |mesh.faces| <= BufferCapacity
            && (!updateBuffer ==>
                  && elementCount == 3 * |mesh.faces|
                  && gpuRows[..elementCount] == Flatten(mesh, |mesh.faces|)
                  && gpuIndexes[..elementCount] == Iota(elementCount)))
    }

    /** The member initialisers of RotatingMeshLoop. */
    constructor()
      ensures Valid() && !started
      ensures ramp == Ramp(0, 10.0, 3.0, 0.0) && prevValue == 10.0
      ensures !drawWireframe && !updateBuffer && elementCount == 0
      ensures mesh == Mesh([], [])
    {
      ramp := Ramp(0, 10.0, 3.0, 0.0);
      prevValue := 10.0;
      drawWireframe := false;
      mesh := Mesh([], []);
      updateBuffer := false;
      elementCount := 0;
      started := false;
      gpuRows := [];
      gpuIndexes := [];
    }

    /** on_startup: builds the decagon prism and uploads its 120 rows and
        120 indexes, which fixes the size of the GPU buffers. */
    method OnStartup()
      requires Valid() && !started
      modifies this
      ensures Valid() && started
      ensures mesh == PrismMesh(Polygon(StartupSides))
      ensures elementCount == BufferCapacity && !updateBuffer
      ensures ramp == old(ramp) && drawWireframe == old(drawWireframe)
    {
      var m := MakePolygonMesh(StartupSides, 0.0);
      DecagonPrism();
      UploadInitial(m);
    }

    /** The buffer part of on_startup: flattens the mesh and creates the GPU
        buffers with exactly its rows and indexes. */
    method UploadInitial(m: Mesh)
      requires Valid() && !started
      requires ValidMesh(m) && 3 * |m.faces| == BufferCapacity
      modifies this
      ensures Valid() && started
      ensures mesh == m
      ensures elementCount == BufferCapacity && !updateBuffer
      ensures ramp == old(ramp) && drawWireframe == old(drawWireframe)
    {
      var buffer := new ArrayBuffer();
      AddMesh(buffer, m);
      FlattenLength(m, |m.faces|);
      mesh := m;
      gpuRows := buffer.vertexes;
      gpuIndexes := buffer.indexes;
      elementCount := |buffer.indexes|;
      started := true;
      assert gpuRows[..elementCount] == gpuRows;
      assert gpuIndexes[..elementCount] == gpuIndexes;
    }

    /** on_event. */
    method OnEvent(e: Event) returns (handled: bool)
      requires Valid()
      modifies this`drawWireframe, this`ramp
      ensures Valid()
      ensures handled == Handles(e)
      ensures drawWireframe == (old(drawWireframe) != TogglesWireframe(e))
      ensures ramp == NextRamp(old(ramp), e)
    {
      NextRampKeepsRange(ramp, e);
      if !e.KeyEvent? {
        return false;
      }
      if e.action == KeyUp && e.sym == KeyP {
        drawWireframe := !drawWireframe;
        return true;
      }
      if e.sym != KeySpace {
        return false;
      }
      if e.action == KeyDown && !e.repeat {
        ramp := Ramp(e.timestamp, RampValue(ramp, e.timestamp), ShrinkTarget, ShrinkFactor);
      } else if e.action == KeyUp {
        ramp := Ramp(e.timestamp, RampValue(ramp, e.timestamp), GrowTarget, GrowFactor);
      }
      return true;
    }

    /** on_update: the mesh is rebuilt, for the polygon with as many sides as
        the ramp's value rounded up, whenever that value differs from
        prev_value_. Since prev_value_ is never reassigned, that is every
        frame whose value is not 10. */
    method OnUpdate(now: Ticks)
      requires Valid() && started
      modifies this`mesh, this`updateBuffer
      ensures Valid()
      ensures var v := RampValue(ramp, now);
        if v == prevValue then mesh == old(mesh) && updateBuffer == old(updateBuffer)
        else
          && updateBuffer
          && mesh == PrismMesh(TransitionPolygon(IntPart(v), v - IntPart(v) as real))
          && |mesh.vertexes| == 2 * SideCount(IntPart(v), v - IntPart(v) as real) + 2
          && 3 <= SideCount(IntPart(v), v - IntPart(v) as real) <= 10
    {
      var value := RampValue(ramp, now);
      if value == prevValue {
        return;
      }
      RampValueInRange(ramp, now);
      var intPart := IntPart(value);
      var fraction := value - intPart as real;
      RebuildFits(value);
      mesh := MakePolygonMesh(intPart, fraction);
      updateBuffer := true;
    }

    /** The buffer part of on_draw: a pending rebuild is flattened and
        written over the start of the GPU buffers (set_buffer_subdata at
        offset 0), which it always fits; what is then drawn is exactly the
        flattened current mesh. */
    method OnDraw() returns (drawn: seq<BufferPoint>)
      requires Valid() && started
      modifies this`gpuRows, this`gpuIndexes, this`elementCount, this`updateBuffer
      ensures Valid() && !updateBuffer
      ensures old(updateBuffer) || (gpuRows == old(gpuRows) && gpuIndexes == old(gpuIndexes))
      ensures elementCount == 3 * |mesh.faces|
      ensures drawn == Gathered(gpuRows, gpuIndexes, elementCount) == Flatten(mesh, |mesh.faces|)
    {
      if updateBuffer {
        Reupload();
      }
      GatheredUpload(gpuRows, gpuIndexes, elementCount, Flatten(mesh, |mesh.faces|));
      var rows, indexes, count := gpuRows, gpuIndexes, elementCount;
      drawn := seq(count, i requires 0 <= i < count => rows[indexes[i]]);
    }

    /** Flattens the current mesh and writes it over the start of the GPU
        buffers. */
    method Reupload()
      requires Valid() && started && updateBuffer
      modifies this`gpuRows, this`gpuIndexes, this`elementCount, this`updateBuffer
      ensures Valid() && !updateBuffer
      ensures elementCount == 3 * |mesh.faces|
      ensures gpuRows == Flatten(mesh, |mesh.faces|) + old(gpuRows)[elementCount..]
      ensures gpuIndexes == Iota(elementCount) + old(gpuIndexes)[elementCount..]
    {
      var buffer := new ArrayBuffer();
      AddMesh(buffer, mesh);
      FlattenLength(mesh, |mesh.faces|);
      gpuRows := buffer.vertexes + gpuRows[|buffer.vertexes|..];
      gpuIndexes := buffer.indexes + gpuIndexes[|buffer.indexes|..];
      elementCount := |buffer.indexes|;
      updateBuffer := false;
      assert gpuRows[..elementCount] == buffer.vertexes;
      assert gpuIndexes[..elementCount] == buffer.indexes;
    }
  }
}
