/** The signature pad as a pure state machine. Both the visitor page and the
    canvas service drive a 2D canvas the same way: pointer-down begins a new
    path at the pointer, pointer-move while drawing extends the path and
    strokes it, pointer-up and pointer-out stop drawing and export the
    canvas as PNG. The classes in VisitorPage and CanvasService keep this
    state in fields and are proved to follow these transitions. */
module SignaturePad {
  import opened Wrappers
  import opened Raster

  /** `drawing` is the `isDrawing` flag; `path` the context's current path;
      `pixels` the paths painted so far (each `stroke()` paints the whole
      current path again). */
  datatype Pad = Pad(drawing: bool, path: seq<Point>, pixels: seq<seq<Point>>)

  /** A freshly sized canvas: setting a canvas's width or height clears its
      bitmap and resets its context, including the current path. */
  const Blank: Pad := Pad(false, [], [])

  datatype PointerEvent = Down(at: Point) | Move(at: Point) | Up | Out

  /** `startDrawing`: set the flag, `beginPath()`, `moveTo(at)`. Nothing is painted. */
  function StartDrawing(p: Pad, at: Point): (q: Pad)
    ensures q.drawing && q.pixels == p.pixels && q.path == [at]
  {
    Pad(true, [at], p.pixels)
  }

  /** `draw`: ignored unless drawing; otherwise `lineTo(at)` then `stroke()`. */
  function Draw(p: Pad, at: Point): (q: Pad)
    ensures !p.drawing ==> q == p
    ensures p.drawing ==> q.drawing && q.pixels == p.pixels + [q.path]
                          && q.path == p.path + [at]
  {
    if !p.drawing then p
    else
      var path := p.path + [at];
      Pad(true, path, p.pixels + [path])
  }

  /** What `toDataURL('image/png')` exports from the surface. */
  function Export(p: Pad): Image {
    Image(PngMime, Strokes(p.pixels))
  }

  /** `stopDrawing`: clear the flag, `closePath()` and export. Closing the
      path adds nothing visible: no stroke follows before the next
      `beginPath()`, since a draw is ignored until pointer-down begins anew. */
  function StopDrawing(p: Pad): (q: Pad)
    ensures !q.drawing && q.pixels == p.pixels
  {
    p.(drawing := false)
  }

  /** `clearCanvas`: `clearRect` over the whole surface. Neither the flag
      nor the current path is touched. */
  function ClearCanvas(p: Pad): (q: Pad)
    ensures q.pixels == [] && q.drawing == p.drawing && q.path == p.path
  {
    p.(pixels := [])
  }

  /** The effect of one pointer event: the new state and the image
      exported, if any. */
  datatype Step = Step(pad: Pad, exported: Option<Image>)

  /** The pointer listeners: down, move, and both up and out to `stopDrawing`. */
  function Handle(p: Pad, e: PointerEvent): (r: Step)
    ensures (e.Up? || e.Out?) <==> r.exported.Some?
    ensures (e.Up? || e.Out?) ==> r.exported == Some(Export(p)) && !r.pad.drawing && r.pad.pixels == p.pixels
    ensures e.Move? && !p.drawing ==> r.pad == p
  {
    match e
    case Down(at) => Step(StartDrawing(p, at), None)
    case Move(at) => Step(Draw(p, at), None)
    case Up => Step(StopDrawing(p), Some(Export(p)))
    case Out => Step(StopDrawing(p), Some(Export(p)))
  }

  /** The final state after a sequence of events and every export, in order. */
  datatype Trace = Trace(pad: Pad, exports: seq<Image>)

  function Run(p: Pad, events: seq<PointerEvent>): Trace
    decreases |events|
  {
    if events == [] then Trace(p, [])
    else
      var st := Handle(p, events[0]);
      var t := Run(st.pad, events[1..]);
      Trace(t.pad, (if st.exported.Some? then [st.exported.value] else []) + t.exports)
  }

  /** Number of events routed to `stopDrawing`. */
  function Stops(events: seq<PointerEvent>): nat {
    if events == [] then 0
    else (if events[0].Up? || events[0].Out? then 1 else 0) + Stops(events[1..])
  }

  predicate NoDown(events: seq<PointerEvent>) {
    forall i :: 0 <= i < |events| ==> !events[i].Down?
  }

  /** Leaving the canvas mid-stroke does exactly what lifting the pointer does. */
  lemma UpAndOutAgree(p: Pad)
    ensures Handle(p, Up) == Handle(p, Out)
  {
  }

  /** Every pointer-up or pointer-out exports once, and nothing else exports. */
  lemma {:induction false} RunExportsOncePerStop(p: Pad, events: seq<PointerEvent>)
    ensures |Run(p, events).exports| == Stops(events)
    decreases |events|
  {
    if events != [] {
      RunExportsOncePerStop(Handle(p, events[0]).pad, events[1..]);
    }
  }

  /** Without a pointer-down, a pad that is not drawing paints nothing and
      stays idle: moves are ignored, and every export shows the same pixels. */
  lemma {:induction false} NoDrawWithoutStart(p: Pad, events: seq<PointerEvent>)
    requires !p.drawing && NoDown(events)
    ensures Run(p, events).pad == p
    ensures forall i :: 0 <= i < |Run(p, events).exports| ==> Run(p, events).exports[i] == Export(p)
    decreases |events|
  {
    if events != [] {
      var q := Handle(p, events[0]).pad;
      assert q == p;
      NoDrawWithoutStart(q, events[1..]);
    }
  }

  /** After a pointer-down, every move paints: the pixels are never empty
      again until the canvas is cleared, so a stroked signature is told apart
      from the export of a cleared canvas. */
  lemma {:induction false} StrokeIsVisible(p: Pad, at: Point, moves: seq<Point>)
    requires moves != []
    ensures Run(p, [Down(at)] + MovesOf(moves) + [Up]).exports
            == [Image(PngMime, Strokes(p.pixels + Painted([at], moves)))]
    ensures Export(ClearCanvas(p)) == Image(PngMime, Strokes([]))
    ensures Painted([at], moves) != []
  {
    var events := [Down(at)] + MovesOf(moves) + [Up];
    var q := StartDrawing(p, at);
    assert events[1..] == MovesOf(moves) + [Up];
    MovesPaint(q, moves, [Up]);
  }

  /** `moves` as pointer-move events. */
  function MovesOf(moves: seq<Point>): (es: seq<PointerEvent>)
    ensures |es| == |moves|
    ensures forall i :: 0 <= i < |moves| ==> es[i] == Move(moves[i])
  {
    if moves == [] then [] else [Move(moves[0])] + MovesOf(moves[1..])
  }

  /** The paths painted by strokes along `moves`, starting from `path`. */
  function Painted(path: seq<Point>, moves: seq<Point>): (r: seq<seq<Point>>)
    ensures |r| == |moves|
    decreases |moves|
  {
    if moves == [] then []
    else [path + [moves[0]]] + Painted(path + [moves[0]], moves[1..])
  }

  /** One move while drawing exports nothing and continues from `Draw`. */
  lemma RunMove(q: Pad, m: Point, rest: seq<PointerEvent>)
    ensures Run(q, [Move(m)] + rest) == Run(Draw(q, m), rest)
  {
    var es := [Move(m)] + rest;
    assert es[1..] == rest;
    var t := Run(Draw(q, m), rest);
    assert [] + t.exports == t.exports;
  }

  /** Splitting the first move off a run of moves. */
  lemma MovesOfCons(moves: seq<Point>, tail: seq<PointerEvent>)
    requires moves != []
    ensures MovesOf(moves) + tail == [Move(moves[0])] + (MovesOf(moves[1..]) + tail)
  {
    var first: seq<PointerEvent> := [Move(moves[0])];
    var rest := MovesOf(moves[1..]);
    assert MovesOf(moves) == first + rest;
    AppendAssoc(first, rest, tail);
  }

  /** Painting the first move, then the rest, paints all of them. */
  lemma PaintedCons(path: seq<Point>, pixels: seq<seq<Point>>, moves: seq<Point>)
    requires moves != []
    ensures (path + [moves[0]]) + moves[1..] == path + moves
    ensures (pixels + [path + [moves[0]]]) + Painted(path + [moves[0]], moves[1..])
            == pixels + Painted(path, moves)
  {
    var p1 := path + [moves[0]];
    assert [moves[0]] + moves[1..] == moves;
    AppendAssoc(path, [moves[0]], moves[1..]);
    var later := Painted(p1, moves[1..]);
    assert Painted(path, moves) == [p1] + later;
    AppendAssoc(pixels, [p1], later);
  }

  lemma AppendAssoc<T>(a: seq<T>, b: seq<T>, c: seq<T>)
    ensures (a + b) + c == a + (b + c)
  {
  }

  lemma {:induction false} MovesPaint(q: Pad, moves: seq<Point>, tail: seq<PointerEvent>)
    requires q.drawing
    ensures Run(q, MovesOf(moves) + tail)
            == Run(Pad(true, q.path + moves, q.pixels + Painted(q.path, moves)), tail)
    decreases |moves|
  {
    if moves == [] {
      assert MovesOf(moves) + tail == tail;
      assert q.path + moves == q.path;
      assert q.pixels + Painted(q.path, moves) == q.pixels;
    } else {
      var m := moves[0];
      MovesOfCons(moves, tail);
      RunMove(q, m, MovesOf(moves[1..]) + tail);
      var d := Draw(q, m);
      assert d == Pad(true, q.path + [m], q.pixels + [q.path + [m]]);
      MovesPaint(d, moves[1..], tail);
      PaintedCons(q.path, q.pixels, moves);
    }
  }
}
