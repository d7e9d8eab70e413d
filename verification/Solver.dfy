/** Allocating and releasing columns. */
module Solver {
  import opened Prelude
  import opened ContextLists
  import opened SolverSpec
  import opened SolverQos
  import ColumnList

  datatype Result = Ok | Invalid | InUse | NoMemory | NoDevice | LoadFailed | ClockFailed

  /** Where a request is put: on columns of its own from the i-th start column, on a partition it joins, or nowhere. */
  datatype Choice = Own(i: nat) | Join(a: Id) | Nowhere

  /** The first start column that is free, or taken for free because the sum wraps, or the length of the list. */
  method FirstFree(startCols: seq<u32>, resbit: set<nat>, ncols: u32) returns (i: nat)
    ensures i <= |startCols|
    ensures forall j | 0 <= j < i :: !Free(resbit, startCols[j], ncols) && !Wraps(startCols[j], ncols)
    ensures i < |startCols| ==> Free(resbit, startCols[i], ncols) || Wraps(startCols[i], ncols)
  {
    i := 0;
    while i < |startCols|
      invariant i <= |startCols|
      invariant forall j | 0 <= j < i :: !Free(resbit, startCols[j], ncols) && !Wraps(startCols[j], ncols)
    {
      FreeCheckIff(resbit, startCols[i], ncols);
      if FreeCheck(resbit, startCols[i], ncols) {
        return;
      }
      i := i + 1;
    }
  }

  predicate IsFirstFree(startCols: seq<u32>, resbit: set<nat>, ncols: u32, i: nat) {
    && i <= |startCols| && (forall j | 0 <= j < i :: !Free(resbit, startCols[j], ncols))
    && (i < |startCols| ==> Free(resbit, startCols[i], ncols))
  }

  predicate Matches(p: Part, startCols: seq<u32>, ncols: u32) {
    !p.exclusive && p.start in startCols && p.ncols == ncols
  }

  /** Among the first n partitions: a matching one with the fewest users, the first of these in the list. */
  predicate IsLeastShared(order: seq<Id>, n: nat, part: map<Id, Part>, startCols: seq<u32>, ncols: u32, r: Option<nat>)
    requires n <= |order| && forall a <- order :: a in part
  {
    match r
    case None => forall j | 0 <= j < n :: !Matches(part[order[j]], startCols, ncols)
    case Some(i) =>
      && i < n && Matches(part[order[i]], startCols, ncols)
      && (forall j | 0 <= j < n && Matches(part[order[j]], startCols, ncols) ::
            part[order[i]].nshared <= part[order[j]].nshared)
      && (forall j | 0 <= j < i && Matches(part[order[j]], startCols, ncols) ::
            part[order[i]].nshared < part[order[j]].nshared)
  }

  method LeastShared(order: seq<Id>, part: map<Id, Part>, startCols: seq<u32>, ncols: u32) returns (r: Option<nat>)
    requires forall a <- order :: a in part
    ensures IsLeastShared(order, |order|, part, startCols, ncols, r)
  {
    r := None;
    var j := 0;
    while j < |order|
      invariant j <= |order| && IsLeastShared(order, j, part, startCols, ncols, r)
    {
      var p := part[order[j]];
      if !p.exclusive && (r == None || p.nshared < part[order[r.value]].nshared) {
        var idx := 0;
        while idx < |startCols|
          invariant idx <= |startCols|
          invariant !Matches(p, startCols[..idx], ncols)
        {
          assert startCols[..idx + 1] == startCols[..idx] + [startCols[idx]];
          if startCols[idx] == p.start && ncols == p.ncols {
            r := Some(j);
            break;
          }
          idx := idx + 1;
        }
        assert idx == |startCols| ==> startCols[..idx] == startCols;
      }
      j := j + 1;
    }
  }

  function NewNode(req: Request): Node {
    Node(req.rid, 0, 0, req.startCols)
  }

  /**
   The choice the solver has to make. Free columns come first, and only without them, or without memory for
   a new record, does the request join the matching partition with the fewest users.
   */
  predicate ChoiceOk(s: Pool, req: Request, addr: Option<Id>, choice: Choice)
    requires forall a <- s.order :: a in s.part
  {
    match choice
    case Own(i) => addr.Some? && i < |req.startCols| && IsFirstFree(req.startCols, s.resbit, req.ncols, i)
    case Join(a) =>
      && (addr.None? || IsFirstFree(req.startCols, s.resbit, req.ncols, |req.startCols|))
      && (exists i | 0 <= i < |s.order| :: s.order[i] == a
            && IsLeastShared(s.order, |s.order|, s.part, req.startCols, req.ncols, Some(i)))
    case Nowhere =>
      && (addr.None? || IsFirstFree(req.startCols, s.resbit, req.ncols, |req.startCols|))
      && IsLeastShared(s.order, |s.order|, s.part, req.startCols, req.ncols, None)
  }

  predicate Placeable(s: Pool, req: Request, addr: Option<Id>, choice: Choice) {
    match choice
    case Own(i) => addr.Some? && i < |req.startCols|
    case Join(a) => a in s.part
    case Nowhere => true
  }

  function Placed(s: Pool, req: Request, addr: Option<Id>, choice: Choice): Pool
    requires Placeable(s, req, addr, choice)
  {
    match choice
    case Own(i) => Fresh(s, addr.value, NewNode(req), req.startCols[i], req.ncols)
    case Join(a) => Share(s, a, NewNode(req))
    case Nowhere => s
  }

  lemma PlacedKeepsInv(s: Pool, req: Request, addr: Option<Id>, choice: Choice)
    requires Inv(s) && (addr.Some? ==> addr.value !in s.part) && (forall n <- s.nodes :: n.rid != req.rid)
    requires ChoiceOk(s, req, addr, choice)
    ensures Placeable(s, req, addr, choice) && Inv(Placed(s, req, addr, choice))
    ensures choice != Nowhere ==>
              var t := Placed(s, req, addr, choice);
              |t.nodes| == |s.nodes| + 1 && t.nodes[|s.nodes|].part in t.part && Drop(t, |s.nodes|) == s
  {
    match choice
    case Own(i) =>
      FreshKeepsInv(s, addr.value, NewNode(req), req.startCols[i], req.ncols);
      DropUndoesFresh(s, addr.value, NewNode(req), req.startCols[i], req.ncols);
    case Join(a) =>
      ShareKeepsInv(s, a, NewNode(req));
      DropUndoesShare(s, a, NewNode(req));
    case Nowhere =>
  }

  /** A placed request once it runs at its level. */
  function Running(s: Pool, level: nat): Pool
    requires s.nodes != []
  {
    var last := |s.nodes| - 1;
    s.(nodes := s.nodes[last := s.nodes[last].(level := level)])
  }

  lemma RunningKeepsInv(s: Pool, level: nat)
    requires Inv(s) && s.nodes != []
    ensures Inv(Running(s, level))
  {
    var last := |s.nodes| - 1;
    var front, n := s.nodes[..last], s.nodes[last];
    assert s.nodes == front + [n];
    assert Running(s, level).nodes == front + [n.(level := level)];
    forall a
      ensures Users(s.nodes, a) == Users(Running(s, level).nodes, a)
    {
      UsersAppend(front, n, a);
      UsersAppend(front, n.(level := level), a);
    }
  }

  /** A placed request comes last, and backing it out would restore the pool. */
  ghost predicate PlacedFrom(s: Pool, t: Pool, req: Request, addr: Option<Id>, choice: Choice) {
    && (forall a <- s.order :: a in s.part)
    && ChoiceOk(s, req, addr, choice) && Placeable(s, req, addr, choice) && t == Placed(s, req, addr, choice)
    && (choice != Nowhere ==>
          var last := |t.nodes| - 1;
          last >= 0 && t.nodes[last].level == 0 && t.nodes[last].part in t.part && Drop(t, last) == s)
  }

  /** The solver made the right choice for an accepted request, and its result says how far it came. */
  ghost predicate Admitted(cfg: Config, s: Pool, req: Request, addr: Option<Id>, loads: bool, clockSets: bool,
                           r: Result, choice: Choice) {
    && (forall a <- s.order :: a in s.part)
    && ChoiceOk(s, req, addr, choice) && Placeable(s, req, addr, choice)
    && r == (if choice == Nowhere then NoDevice
             else if !loads then LoadFailed
             else if !clockSets then ClockFailed
             else Ok)
  }

  /** The pool afterwards: the request is placed and runs at its level, or nothing changed. */
  function Outcome(s: Pool, req: Request, addr: Option<Id>, r: Result, choice: Choice, level: nat): Pool {
    if r == Ok && Placeable(s, req, addr, choice) && choice != Nowhere
    then Running(Placed(s, req, addr, choice), level)
    else s
  }

  lemma OutcomeKeepsInv(cfg: Config, s: Pool, req: Request, addr: Option<Id>, loads: bool, clockSets: bool,
                        r: Result, choice: Choice, level: nat)
    requires Inv(s) && (addr.Some? ==> addr.value !in s.part) && (forall n <- s.nodes :: n.rid != req.rid)
    requires Admitted(cfg, s, req, addr, loads, clockSets, r, choice)
    ensures Inv(Outcome(s, req, addr, r, choice, level))
  {
    PlacedKeepsInv(s, req, addr, choice);
    if r == Ok {
      RunningKeepsInv(Placed(s, req, addr, choice), level);
    }
  }

  lemma LevelsStayOk(cfg: Config, s: Pool, level0: nat, sessions: map<nat, Request>, req: Request,
                     addr: Option<Id>, r: Result, choice: Choice, level: nat)
    requires LevelsOk(cfg, s.nodes, level0, sessions) && (forall n <- s.nodes :: n.rid != req.rid)
    requires if r in {Ok, ClockFailed} then IsLevel(cfg, s.nodes, req, level) else level == level0
    requires r == Ok ==> choice != Nowhere && Placeable(s, req, addr, choice)
    ensures LevelsOk(cfg, Outcome(s, req, addr, r, choice, level).nodes, level,
                     if r == Ok then sessions[req.rid := req] else sessions)
  {
    if r == Ok {
      var t := Placed(s, req, addr, choice);
      var n := t.nodes[|s.nodes|];
      assert Running(t, level).nodes == s.nodes + [n.(level := level)];
    }
  }

  // What a request gets, in plain terms

  /** The columns cannot be had: they reach past the bitmap, or one of them is taken. */
  ghost predicate Unavailable(bits: set<nat>, col: nat, ncols: nat) {
    col + ncols > MAX_COL || exists c: nat | c in bits :: col <= c < col + ncols
  }

  /** No columns of its own can be had, or no record for them. */
  ghost predicate NoneOfItsOwn(s: Pool, req: Request, addr: Option<Id>) {
    addr.None? || forall j | 0 <= j < |req.startCols| :: Unavailable(s.resbit, req.startCols[j], req.ncols)
  }

  /** The partition could be shared. */
  predicate Sharable(p: Part, req: Request) {
    !p.exclusive && p.start in req.startCols && p.ncols == req.ncols
  }

  ghost predicate NowhereToGo(s: Pool, req: Request, addr: Option<Id>)
    requires forall a <- s.order :: a in s.part
  {
    NoneOfItsOwn(s, req, addr) && forall a <- s.order :: !Sharable(s.part[a], req)
  }

  /** The request has columns of its own, from the first start column of its list where they could be had. */
  ghost predicate HasOwn(s: Pool, t: Pool, req: Request, a: Id, i: nat, level: nat) {
    && i < |req.startCols| && !Unavailable(s.resbit, req.startCols[i], req.ncols)
    && (forall j | 0 <= j < i :: Unavailable(s.resbit, req.startCols[j], req.ncols))
    && (var start := req.startCols[i];
        && t.part == s.part[a := Part(start, req.ncols, 1, false)]
        && (forall c: nat :: c in t.resbit <==> c in s.resbit || start <= c < start + req.ncols))
    && t.nodes == s.nodes + [Node(req.rid, a, level, req.startCols)]
  }

  /** The request is one more user of a partition that no other one it could share has fewer users than. */
  ghost predicate HasJoined(s: Pool, t: Pool, req: Request, a: Id, level: nat)
    requires forall b <- s.order :: b in s.part
  {
    && a in s.order && Sharable(s.part[a], req)
    && (forall b <- s.order | Sharable(s.part[b], req) :: s.part[a].nshared <= s.part[b].nshared)
    && t.part == s.part[a := s.part[a].(nshared := s.part[a].nshared + 1)] && t.resbit == s.resbit
    && t.nodes == s.nodes + [Node(req.rid, a, level, req.startCols)]
  }

  ghost predicate HasColumns(s: Pool, t: Pool, req: Request, addr: Option<Id>, choice: Choice, level: nat)
    requires forall b <- s.order :: b in s.part
  {
    match choice
    case Own(i) => addr.Some? && HasOwn(s, t, req, addr.value, i, level)
    case Join(a) => NoneOfItsOwn(s, req, addr) && HasJoined(s, t, req, a, level)
    case Nowhere => false
  }

  lemma FreeIff(bits: set<nat>, col: nat, ncols: nat)
    ensures Free(bits, col, ncols) <==> !Unavailable(bits, col, ncols)
  {
    if col + ncols <= MAX_COL && !Free(bits, col, ncols) {
      var c: nat :| Within(col, ncols, c) && c in bits;
    }
  }

  lemma OwnIsPlain(s: Pool, req: Request, a: Id, i: nat)
    requires i < |req.startCols| && IsFirstFree(req.startCols, s.resbit, req.ncols, i)
    ensures HasOwn(s, Fresh(s, a, NewNode(req), req.startCols[i], req.ncols), req, a, i, 0)
  {
    forall j | 0 <= j <= i
      ensures Free(s.resbit, req.startCols[j], req.ncols) <==> !Unavailable(s.resbit, req.startCols[j], req.ncols)
    {
      FreeIff(s.resbit, req.startCols[j], req.ncols);
    }
  }

  lemma NoneFreeIsPlain(s: Pool, req: Request)
    requires IsFirstFree(req.startCols, s.resbit, req.ncols, |req.startCols|)
    ensures forall j | 0 <= j < |req.startCols| :: Unavailable(s.resbit, req.startCols[j], req.ncols)
  {
    forall j | 0 <= j < |req.startCols|
      ensures Unavailable(s.resbit, req.startCols[j], req.ncols)
    {
      FreeIff(s.resbit, req.startCols[j], req.ncols);
    }
  }

  /** The rule of choice gives each request what it should have. */
  lemma ChoiceIsPlain(s: Pool, req: Request, addr: Option<Id>, choice: Choice)
    requires forall a <- s.order :: a in s.part
    requires ChoiceOk(s, req, addr, choice) && Placeable(s, req, addr, choice)
    ensures choice == Nowhere <==> NowhereToGo(s, req, addr)
    ensures choice != Nowhere ==> HasColumns(s, Placed(s, req, addr, choice), req, addr, choice, 0)
  {
    match choice
    case Own(i) =>
      OwnIsPlain(s, req, addr.value, i);
    case Join(a) =>
      if addr.Some? {
        NoneFreeIsPlain(s, req);
      }
    case Nowhere =>
      if addr.Some? {
        NoneFreeIsPlain(s, req);
      }
  }

  lemma RunningHasColumns(s: Pool, t: Pool, req: Request, addr: Option<Id>, choice: Choice, level: nat)
    requires (forall b <- s.order :: b in s.part) && HasColumns(s, t, req, addr, choice, 0)
    ensures t.nodes != [] && HasColumns(s, Running(t, level), req, addr, choice, level)
  {
    var n := t.nodes[|s.nodes|];
    assert Running(t, level).nodes == s.nodes + [n.(level := level)];
  }

  /** The k-th request is gone; if it was the last user of its partition, so are the record and the columns. */
  ghost predicate Gone(s: Pool, t: Pool, k: nat)
    requires k < |s.nodes| && s.nodes[k].part in s.part
  {
    var a := s.nodes[k].part;
    var p := s.part[a];
    && t.nodes == s.nodes[..k] + s.nodes[k + 1..]
    && (if p.nshared > 1
        then t.part == s.part[a := p.(nshared := p.nshared - 1)] && t.resbit == s.resbit
        else
          && a !in t.part && (forall b <- s.part | b != a :: b in t.part && t.part[b] == s.part[b])
          && (forall c: nat :: c in t.resbit <==> c in s.resbit && !(p.start <= c < p.start + p.ncols)))
  }

  lemma DropIsPlain(s: Pool, k: nat)
    requires k < |s.nodes| && s.nodes[k].part in s.part
    ensures Gone(s, Drop(s, k), k)
  {
  }

  predicate Accepted(cfg: Config, nodes: seq<Node>, req: Request)
    requires cfg.clocks != []
  {
    Sane(cfg, req) && forall n <- nodes :: n.rid != req.rid
  }

  /** The start columns that the driver lists for a context never wrap. */
  lemma ListedColumnsDoNotWrap(list: seq<nat>, n: nat, totalCol: u32, firstCol: nat, natural: bool, c: nat)
    requires ColumnList.IsStartList(list, n, totalCol, firstCol, natural) && c in list
    ensures c < TWO_32 && n < TWO_32 && !Wraps(c, n)
  {
    ColumnList.PlacementInside(list, n, totalCol, firstCol, natural, c);
  }

  class Solver {
    const cfg: Config
    var nodes: seq<Node>
    var order: seq<Id>
    var part: map<Id, Part>
    var resbit: set<nat>
    var nnode: int
    var npart: int
    var level: nat
    ghost var sessions: map<nat, Request>

    ghost function State(): Pool
      reads this
    {
      Pool(nodes, order, part, resbit, nnode, npart)
    }

    ghost predicate Valid()
      reads this
    {
      Inv(State()) && LevelsOk(cfg, nodes, level, sessions)
    }

    constructor (cfg: Config, level: nat)
      requires level < |cfg.clocks|
      ensures Valid() && nodes == [] && part == map[] && resbit == {}
      ensures this.cfg == cfg && this.level == level
    {
      this.cfg, this.level := cfg, level;
      nodes, order, part, resbit := [], [], map[], {};
      nnode, npart, sessions := 0, 0, map[];
    }

    /** The position of a request among the live ones, or their number. */
    method Search(rid: nat) returns (k: nat)
      ensures k <= |nodes| && (forall i | 0 <= i < k :: nodes[i].rid != rid)
      ensures k < |nodes| ==> nodes[k].rid == rid
    {
      k := 0;
      while k < |nodes|
        invariant k <= |nodes| && forall i | 0 <= i < k :: nodes[i].rid != rid
      {
        if nodes[k].rid == rid {
          return;
        }
        k := k + 1;
      }
    }

    method RemoveNode(k: nat)
      requires k < |nodes| && nodes[k].part in part
      modifies this`nodes, this`order, this`part, this`resbit, this`nnode, this`npart
      ensures State() == Drop(old(State()), k)
    {
      var a := nodes[k].part;
      nodes, nnode := nodes[..k] + nodes[k + 1..], nnode - 1;
      var p := part[a];
      if p.nshared > 1 {
        part := part[a := p.(nshared := p.nshared - 1)];
        return;
      }
      order, npart, part := Without(order, a), npart - 1, part - {a};
      resbit := resbit - Columns(p.start, p.ncols);
    }

    /** Place a request. `addr` is where its partition record would go, if there is memory for one. */
    method CreateNode(req: Request, addr: Option<Id>) returns (choice: Choice)
      requires forall a <- order :: a in part
      requires forall col <- req.startCols :: !Wraps(col, req.ncols)
      modifies this`nodes, this`order, this`part, this`resbit, this`nnode, this`npart
      ensures ChoiceOk(old(State()), req, addr, choice) && Placeable(old(State()), req, addr, choice)
      ensures State() == Placed(old(State()), req, addr, choice)
      ensures choice == Nowhere <==> NowhereToGo(old(State()), req, addr)
      ensures choice != Nowhere ==> HasColumns(old(State()), State(), req, addr, choice, 0)
    {
      ghost var s := State();
      var i := FirstFree(req.startCols, resbit, req.ncols);
      var n := NewNode(req);
      if i < |req.startCols| && addr.Some? {
        order, npart := order + [addr.value], npart + 1;
        part := part[addr.value := Part(req.startCols[i], req.ncols, 1, false)];
        resbit := resbit + Columns(req.startCols[i], req.ncols);
        nodes, nnode := nodes + [n.(part := addr.value)], nnode + 1;
        ChoiceIsPlain(s, req, addr, Own(i));
        return Own(i);
      }
      var r := LeastShared(order, part, req.startCols, req.ncols);
      if r == None {
        ChoiceIsPlain(s, req, addr, Nowhere);
        return Nowhere;
      }
      var a := order[r.value];
      part := part[a := part[a].(nshared := part[a].nshared + 1)];
      nodes, nnode := nodes + [n.(part := a)], nnode + 1;
      ChoiceIsPlain(s, req, addr, Join(a));
      return Join(a);
    }

    method Place(req: Request, addr: Option<Id>) returns (choice: Choice)
      requires Inv(State()) && (addr.Some? ==> addr.value !in part) && (forall n <- nodes :: n.rid != req.rid)
      requires forall col <- req.startCols :: !Wraps(col, req.ncols)
      modifies this`nodes, this`order, this`part, this`resbit, this`nnode, this`npart
      ensures PlacedFrom(old(State()), State(), req, addr, choice)
    {
      ghost var s := State();
      choice := CreateNode(req, addr);
      PlacedKeepsInv(s, req, addr, choice);
    }

    method BackOut(ghost s: Pool)
      requires nodes != [] && nodes[|nodes| - 1].part in part && Drop(State(), |nodes| - 1) == s
      modifies this`nodes, this`order, this`part, this`resbit, this`nnode, this`npart
      ensures State() == s
    {
      RemoveNode(|nodes| - 1);
    }

    /** The request is placed and loaded; with its level set it runs, or else it is backed out. */
    method SetLevel(req: Request, clockSets: bool, ghost s: Pool) returns (ok: bool)
      requires nodes != [] && nodes[|nodes| - 1].part in part && Drop(State(), |nodes| - 1) == s
      requires cfg.clocks != [] && Sane(cfg, req)
      requires nodes[|nodes| - 1].level == 0 && forall n <- s.nodes :: n.level < |cfg.clocks|
      modifies this
      ensures ok == clockSets && IsLevel(cfg, s.nodes, req, level)
      ensures State() == if ok then Running(old(State()), level) else s
      ensures sessions == if ok then old(sessions)[req.rid := req] else old(sessions)
    {
      assert nodes == s.nodes + [nodes[|nodes| - 1]];
      level := ChooseLevel(cfg, nodes, req);
      NewSessionDoesNotCount(cfg, s.nodes, nodes[|nodes| - 1], req, level);
      if !clockSets {
        BackOut(s);
        return false;
      }
      nodes := nodes[|nodes| - 1 := nodes[|nodes| - 1].(level := level)];
      sessions := sessions[req.rid := req];
      return true;
    }

    /** A placed request is loaded and its level is chosen, or it is backed out. */
    method Launch(req: Request, loads: bool, clockSets: bool, ghost s: Pool) returns (r: Result)
      requires nodes != [] && nodes[|nodes| - 1].part in part && Drop(State(), |nodes| - 1) == s
      requires cfg.clocks != [] && Sane(cfg, req)
      requires nodes[|nodes| - 1].level == 0 && forall n <- s.nodes :: n.level < |cfg.clocks|
      modifies this
      ensures r == if !loads then LoadFailed else if !clockSets then ClockFailed else Ok
      ensures State() == if r == Ok then Running(old(State()), level) else s
      ensures if loads then IsLevel(cfg, s.nodes, req, level) else level == old(level)
      ensures sessions == if r == Ok then old(sessions)[req.rid := req] else old(sessions)
    {
      if !loads {
        BackOut(s);
        return LoadFailed;
      }
      var ok := SetLevel(req, clockSets, s);
      return if ok then Ok else ClockFailed;
    }

    /** Place an accepted request, load it and choose the level, or back out. */
    method Admit(req: Request, addr: Option<Id>, loads: bool, clockSets: bool) returns (r: Result, choice: Choice)
      requires Valid() && (addr.Some? ==> addr.value !in part) && Accepted(cfg, nodes, req)
      requires forall col <- req.startCols :: !Wraps(col, req.ncols)
      modifies this
      ensures Admitted(cfg, old(State()), req, addr, loads, clockSets, r, choice)
      ensures State() == Outcome(old(State()), req, addr, r, choice, level)
      ensures if r in {Ok, ClockFailed} then IsLevel(cfg, old(nodes), req, level) else level == old(level)
      ensures sessions == if r == Ok then old(sessions)[req.rid := req] else old(sessions)
    {
      ghost var s := State();
      choice := Place(req, addr);
      if choice == Nowhere {
        return NoDevice, choice;
      }
      r := Launch(req, loads, clockSets, s);
    }

    /**
     Allocate columns for a request. The outcomes of the callbacks and of the memory allocations come from
     outside. Whatever fails, the pool is left exactly as it was.
     */
    method Allocate(req: Request, memory: bool, addr: Option<Id>, loads: bool, clockSets: bool)
      returns (r: Result, choice: Choice)
      requires Valid() && (addr.Some? ==> addr.value !in part)
      requires forall col <- req.startCols :: !Wraps(col, req.ncols)
      modifies this
      ensures Valid()
      ensures r == Invalid <==> req.ncols > cfg.totalCol || !Meets(cfg, req, |cfg.clocks| - 1)
      ensures r == InUse <==> Sane(cfg, req) && exists n <- old(nodes) :: n.rid == req.rid
      ensures r == NoMemory <==> Accepted(cfg, old(nodes), req) && !memory
      ensures r !in {Invalid, InUse, NoMemory} ==>
                Admitted(cfg, old(State()), req, addr, loads, clockSets, r, choice)
      ensures r !in {Invalid, InUse, NoMemory} ==>
                r == (if NowhereToGo(old(State()), req, addr) then NoDevice
                      else if !loads then LoadFailed
                      else if !clockSets then ClockFailed
                      else Ok)
      ensures r == Ok ==> HasColumns(old(State()), State(), req, addr, choice, level)
      ensures r == Ok ==> sessions == old(sessions)[req.rid := req]
      ensures r == Ok ==> State() == Outcome(old(State()), req, addr, r, choice, level)
      ensures r != Ok ==> State() == old(State())
      ensures if r in {Ok, ClockFailed} then IsLevel(cfg, old(nodes), req, level) else level == old(level)
    {
      if !Sane(cfg, req) {
        return Invalid, Nowhere;
      }
      var k := Search(req.rid);
      if k < |nodes| {
        assert nodes[k] in nodes;
        return InUse, Nowhere;
      }
      if !memory {
        return NoMemory, Nowhere;
      }
      ghost var s, l, m := State(), level, sessions;
      r, choice := Admit(req, addr, loads, clockSets);
      OutcomeKeepsInv(cfg, s, req, addr, loads, clockSets, r, choice, level);
      LevelsStayOk(cfg, s, l, m, req, addr, r, choice, level);
      ChoiceIsPlain(s, req, addr, choice);
      if r == Ok {
        RunningHasColumns(s, Placed(s, req, addr, choice), req, addr, choice, level);
      }
    }

    /** Release a request's columns. */
    method Release(rid: nat) returns (ok: bool, ghost k: nat)
      requires Valid()
      modifies this
      ensures Valid() && level == old(level)
      ensures ok <==> exists n <- old(nodes) :: n.rid == rid
      ensures !ok ==> State() == old(State())
      ensures ok ==> k < |old(nodes)| && old(nodes)[k].rid == rid && old(nodes)[k].part in old(part)
      ensures ok ==> State() == Drop(old(State()), k) && Gone(old(State()), State(), k)
    {
      var i := Search(rid);
      k := i;
      if i == |nodes| {
        return false, k;
      }
      assert nodes[i] in nodes;
      DropKeepsInv(State(), i);
      DropIsPlain(State(), i);
      RemoveNode(i);
      return true, k;
    }
  }
}
