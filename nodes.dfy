/**
 * What the tracker reads from a render node, given as plain values instead
 * of calls into the host application: its type name, and the frame-range
 * parameters `trange`, `f1` and `f2` (None when the node has no such parameter).
 */
module Nodes {
  import opened Wrappers

  datatype RangeParms = RangeParms(trange: Option<int>, f1: Option<real>, f2: Option<real>)

  /** A render node as the callback sees it. `typeName` is None when asking for the type raises. */
  datatype Node = Node(path: string, typeName: Option<string>, parms: RangeParms)

  /** Python's int() on a float: truncation toward zero. */
  function Trunc(x: real): (r: int)
    ensures x >= 0.0 ==> r as real <= x < r as real + 1.0
    ensures x < 0.0 ==> r as real - 1.0 < x <= r as real
  {
    if x >= 0.0 then x.Floor else -((-x).Floor)
  }

  /** On a whole number truncation is exact. */
  lemma TruncWhole(k: int)
    ensures Trunc(k as real) == k
  {
  }

  /**
   * get_sequence_range: the (start, end) frames. A node without a `trange`
   * parameter, or set to render the current frame only (trange 0), gives
   * (1, 1); so does a node whose `f1` or `f2` cannot be read, since reading
   * it raises and the exception is caught.
   */
  function SequenceRange(p: RangeParms): (r: (real, real))
    ensures (p.trange.None? || p.trange.value == 0) ==> r == (1.0, 1.0)
    ensures (p.trange.Some? && p.trange.value != 0 && (p.f1.None? || p.f2.None?)) ==> r == (1.0, 1.0)
    ensures (p.trange.Some? && p.trange.value != 0 && p.f1.Some? && p.f2.Some?) ==> r == (p.f1.value, p.f2.value)
  {
    if p.trange.None? then (1.0, 1.0)
    else if p.trange.value == 0 then (1.0, 1.0)
    else if p.f1.None? || p.f2.None? then (1.0, 1.0)
    else (p.f1.value, p.f2.value)
  }

  /** get_render_engine: the engine name shown in messages. */
  function RenderEngine(typeName: Option<string>): (engine: string)
    ensures typeName == Some("ifd") ==> engine == "Mantra"
    ensures typeName == Some("usdrender_rop") ==> engine == "Karma"
    ensures typeName.None? ==> engine == "Unknown"
    ensures typeName.Some? && typeName.value != "ifd" && typeName.value != "usdrender_rop" ==> engine == typeName.value
  {
    match typeName
    case None => "Unknown"
    case Some(t) => if t == "ifd" then "Mantra" else if t == "usdrender_rop" then "Karma" else t
  }

  /** is_render_node: Mantra (`ifd`) and Karma (`usdrender_rop`) output nodes. */
  function IsRenderNode(typeName: Option<string>): (b: bool)
    ensures b <==> typeName == Some("ifd") || typeName == Some("usdrender_rop")
  {
    match typeName
    case None => false
    case Some(t) => t == "ifd" || t == "usdrender_rop"
  }

  /** A render node is always reported under one of the two engine names. */
  lemma RenderNodeEngine(typeName: Option<string>)
    requires IsRenderNode(typeName)
    ensures RenderEngine(typeName) == "Mantra" || RenderEngine(typeName) == "Karma"
  {
  }
}
