/** The clock level a session needs, in the driver's 32-bit arithmetic and in plain numbers. */
module SolverQos {
  import opened Prelude
  import opened SolverSpec

  datatype Qos = Qos(gops: u32, fps: u32, latency: u32)

  datatype Request = Request(rid: nat, startCols: seq<u32>, ncols: u32, opc: u32, qos: Qos)

  datatype Config = Config(totalCol: nat, eff: u32, clocks: seq<u32>)

  function Mul32(a: nat, b: nat): u32 {
    (a * b) % TWO_32
  }

  /** Frames per second asked for, directly or by a latency in milliseconds. */
  function Rate(q: Qos): nat {
    var serviceRate := if q.latency != 0 then 1000 / q.latency else 0;
    if q.fps > serviceRate then q.fps else serviceRate
  }

  predicate QosGiven(q: Qos) {
    q.gops > 0 && (q.fps > 0 || q.latency > 0)
  }

  /** The comparison the driver makes, products wrapped to 32 bits. */
  predicate Meets(cfg: Config, req: Request, level: nat)
    requires level < |cfg.clocks|
  {
    Mul32(Mul32(Rate(req.qos), req.qos.gops), cfg.eff) <= Mul32(req.opc, cfg.clocks[level]) / 1000
  }

  /** What it stands for: the clock serves the frames asked for, and one frame within the latency asked for. */
  predicate Served(cfg: Config, req: Request, level: nat)
    requires level < |cfg.clocks|
  {
    var capacity := req.opc * cfg.clocks[level] / 1000;
    && req.qos.fps * req.qos.gops * cfg.eff <= capacity
    && (req.qos.latency > 0 ==> 1000 / req.qos.latency * req.qos.gops * cfg.eff <= capacity)
  }

  predicate Sane(cfg: Config, req: Request)
    requires cfg.clocks != []
  {
    req.ncols <= cfg.totalCol && Meets(cfg, req, |cfg.clocks| - 1)
  }

  /** A rate of frames and the operations it takes stay in 32 bits. */
  predicate Small(cfg: Config, req: Request, rate: nat) {
    rate * req.qos.gops < TWO_32 && rate * req.qos.gops * cfg.eff < TWO_32
  }

  predicate NoOverflow(cfg: Config, req: Request) {
    && Small(cfg, req, req.qos.fps) && (req.qos.latency > 0 ==> Small(cfg, req, 1000 / req.qos.latency))
    && (forall clock <- cfg.clocks :: req.opc * clock < TWO_32)
  }

  predicate Rising(cfg: Config) {
    forall i, j | 0 <= i < j < |cfg.clocks| :: cfg.clocks[i] <= cfg.clocks[j]
  }

  /** Some level up to this one passed the driver's comparison. */
  ghost predicate MetBy(cfg: Config, req: Request, level: nat) {
    exists l: nat :: l <= level && l < |cfg.clocks| && Meets(cfg, req, l)
  }

  /** The level never falls below what a live session was given, and that one was enough for it. */
  ghost predicate LevelsOk(cfg: Config, nodes: seq<Node>, level: nat, sessions: map<nat, Request>) {
    && level < |cfg.clocks|
    && forall n <- nodes :: n.level <= level && n.rid in sessions && MetBy(cfg, sessions[n.rid], n.level)
  }

  /** Without overflow the driver's comparison is what it stands for: both demands, not only one of them. */
  lemma MeetsIffServed(cfg: Config, req: Request, level: nat)
    requires NoOverflow(cfg, req) && level < |cfg.clocks|
    ensures Meets(cfg, req, level) <==> Served(cfg, req, level)
  {
    var gops, fps := req.qos.gops, req.qos.fps;
    var rate := Rate(req.qos);
    assert cfg.clocks[level] in cfg.clocks;
    Mul32Exact(req.opc, cfg.clocks[level]);
    RateIsLarger(req.qos);
    if rate == 0 {
      NoRateNoDemand(cfg, req);
    }
    assert Small(cfg, req, rate);
    Mul32Exact(rate, gops);
    Mul32Exact(rate * gops, cfg.eff);
    LargerRateAsksMore(fps, rate, gops, cfg.eff);
    if req.qos.latency > 0 {
      LargerRateAsksMore(1000 / req.qos.latency, rate, gops, cfg.eff);
    }
  }

  lemma RateIsLarger(q: Qos)
    ensures Rate(q) >= q.fps && (q.latency > 0 ==> Rate(q) >= 1000 / q.latency)
    ensures Rate(q) == q.fps || (q.latency > 0 && Rate(q) == 1000 / q.latency)
  {
  }

  lemma NoRateNoDemand(cfg: Config, req: Request)
    ensures Small(cfg, req, 0)
  {
  }

  lemma LargerRateAsksMore(a: nat, b: nat, gops: nat, eff: nat)
    requires a <= b
    ensures a * gops * eff <= b * gops * eff
  {
    ProductUp(gops, a, b);
    ProductUp(eff, a * gops, b * gops);
  }

  lemma ServedAbove(cfg: Config, req: Request, l: nat, level: nat)
    requires Rising(cfg) && NoOverflow(cfg, req) && l <= level < |cfg.clocks| && Meets(cfg, req, l)
    ensures Served(cfg, req, level)
  {
    MeetsIffServed(cfg, req, l);
    var low, high := cfg.clocks[l], cfg.clocks[level];
    assert low <= high;
    ProductUp(req.opc, low, high);
    QuotientUp(req.opc * low, req.opc * high);
  }

  lemma Mul32Exact(a: nat, b: nat)
    requires a * b < TWO_32
    ensures Mul32(a, b) == a * b
  {
  }

  lemma QuotientUp(x: nat, y: nat)
    requires x <= y
    ensures x / 1000 <= y / 1000
  {
  }

  /**
   With a rising clock table, the current level serves every live session whose figures do not overflow,
   not only the one that was admitted last.
   */
  lemma LevelServesAll(cfg: Config, nodes: seq<Node>, level: nat, sessions: map<nat, Request>)
    requires Rising(cfg) && LevelsOk(cfg, nodes, level, sessions)
    ensures forall n <- nodes | NoOverflow(cfg, sessions[n.rid]) :: Served(cfg, sessions[n.rid], level)
  {
    forall n <- nodes | NoOverflow(cfg, sessions[n.rid])
      ensures Served(cfg, sessions[n.rid], level)
    {
      var l: nat :| l <= n.level && l < |cfg.clocks| && Meets(cfg, sessions[n.rid], l);
      ServedAbove(cfg, sessions[n.rid], l, level);
    }
  }

  /**
   The level for a new request: it serves the request, is no lower than any live session's, and is not higher
   than one or the other needs. Without QoS figures it is the highest.
   */
  ghost predicate IsLevel(cfg: Config, nodes: seq<Node>, req: Request, level: nat) {
    && level < |cfg.clocks| && MetBy(cfg, req, level)
    && (forall n <- nodes :: n.level <= level)
    && (if req.qos.gops > 0 && (req.qos.fps > 0 || req.qos.latency > 0)
        then forall l: nat | l < level :: !Meets(cfg, req, l) || exists n <- nodes :: n.level > l
        else level == |cfg.clocks| - 1)
  }

  /** The new session is on the list already when its level is chosen, at level 0, and makes no difference. */
  lemma NewSessionDoesNotCount(cfg: Config, nodes: seq<Node>, n: Node, req: Request, level: nat)
    requires n.level == 0 && IsLevel(cfg, nodes + [n], req, level)
    ensures IsLevel(cfg, nodes, req, level)
  {
    assert forall m :: m in nodes + [n] <==> m in nodes || m == n;
  }

  method ChooseLevel(cfg: Config, nodes: seq<Node>, req: Request) returns (level: nat)
    requires cfg.clocks != [] && Sane(cfg, req) && forall n <- nodes :: n.level < |cfg.clocks|
    ensures IsLevel(cfg, nodes, req, level)
  {
    var max := |cfg.clocks| - 1;
    if !QosGiven(req.qos) {
      return max;
    }
    level := 0;
    while level < max
      invariant level <= max && forall l: nat | l < level :: !Meets(cfg, req, l)
    {
      if Meets(cfg, req, level) {
        break;
      }
      level := level + 1;
    }
    assert Meets(cfg, req, level);
    var i := 0;
    while i < |nodes|
      invariant i <= |nodes| && level < |cfg.clocks| && MetBy(cfg, req, level)
      invariant forall n <- nodes[..i] :: n.level <= level
      invariant forall l: nat | l < level :: !Meets(cfg, req, l) || exists n <- nodes :: n.level > l
    {
      assert nodes[..i + 1] == nodes[..i] + [nodes[i]] && nodes[i] in nodes;
      if nodes[i].level > level {
        level := nodes[i].level;
      }
      i := i + 1;
    }
    assert nodes[..i] == nodes;
  }
}
