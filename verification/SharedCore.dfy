/**
 One core, two transports (mcpgate/mcpgate.go, gateway/pep.go): HTTP requests and MCP tool
 calls interleave over one spend log and one transparency log.
 */
module SharedCore {
  import opened Bytes
  import opened Maps
  import opened TransLog
  import opened Gate
  import opened Binding
  import opened Pep
  import opened PepRuns
  import M = McpGate

  /** The two enforcement points; they may differ in allowlist and key, not in the log. */
  datatype Points = Points(http: Config, mcp: M.Config)

  ghost predicate OneLog(p: Points) {
    p.http.c == p.mcp.c && p.http.pub == p.mcp.pub
  }

  /** What the clients of both ask for. */
  datatype Clients = Clients(reqs: map<Rid, Req>, calls: map<M.Cid, M.ToolCall>)

  datatype World = World(shared: Shared, pcs: map<Rid, PC>, calls: map<M.Cid, M.PC>)

  datatype Move = Http(rid: Rid, env: Env) | Tool(id: M.Cid, toolEnv: M.Env)

  /** The world as each enforcement point sees it. */
  function HttpPart(w: World): State { State(w.shared, w.pcs) }

  function ToolPart(w: World): M.State { M.State(w.shared.spent, w.shared.log, w.calls, []) }

  function Turn(p: Points, cl: Clients, w: World, move: Move): World {
    match move
    case Http(rid, env) =>
      var s := Step(p.http, cl.reqs, HttpPart(w), rid, env);
      World(s.shared, s.pcs, w.calls)
    case Tool(id, env) =>
      var s := M.Step(p.mcp, cl.calls, ToolPart(w), id, env);
      World(w.shared.(spent := s.spent, log := s.log), w.pcs, s.pcs)
  }

  function Play(p: Points, cl: Clients, w: World, moves: seq<Move>): World
    decreases |moves|
  {
    if moves == [] then w else Play(p, cl, Turn(p, cl, w, moves[0]), moves[1..])
  }

  /** All requests and calls new, over a sound log and whatever was spent before. */
  ghost predicate Opening(p: Points, cl: Clients, w: World) {
    && Initial(p.http, cl.reqs, HttpPart(w))
    && w.calls.Keys == cl.calls.Keys
    && (forall id :: id in w.calls ==> w.calls[id].Requested?)
  }

  function HttpNonces(w: World): map<Rid, Digest> { SpentBy(HttpPart(w)) }

  function ToolNonces(cl: Clients, w: World): map<M.Cid, Digest> { M.SpentBy(cl.calls, ToolPart(w)) }

  /** Each side's nonces are new to what was spent before and to the other side. */
  ghost predicate NoncesApart(cl: Clients, first: Shared, w: World) {
    && NoncesMatch(HttpPart(w), first.spent + ToolNonces(cl, w).Values)
    && M.NoncesMatch(cl.calls, ToolPart(w), first.spent + HttpNonces(w).Values)
  }

  ghost predicate Inv(p: Points, cl: Clients, first: Shared, w: World) {
    && w.pcs.Keys == cl.reqs.Keys
    && w.calls.Keys == cl.calls.Keys
    && Extends(first, w.shared)
    && Sound(p.http.c, p.http.pub, w.shared.log)
    && (forall r :: r in cl.reqs ==> Local(p.http, w.shared, |first.log|, cl.reqs[r], w.pcs[r]))
    && NoncesApart(cl, first, w)
  }

  // ----- an HTTP request moves

  lemma HttpKeepsNonces(cl: Clients, first: Shared, w: World, rid: Rid, sh': Shared, pc': PC)
    requires NoncesApart(cl, first, w) && rid in w.pcs && SpendsRight(w.shared, w.pcs[rid], sh', pc')
    ensures NoncesApart(cl, first, World(sh', w.pcs[rid := pc'], w.calls))
  {
    hide OneToOne, SpendsRight, SpentBy, M.SpentBy;
    var w' := World(sh', w.pcs[rid := pc'], w.calls);
    NoncesSurvive(HttpPart(w), first.spent + ToolNonces(cl, w).Values, rid, sh', pc');
    SameCalls(cl, w, w');
  }

  lemma SameCalls(cl: Clients, w: World, w': World)
    requires w'.calls == w.calls
    ensures ToolNonces(cl, w') == ToolNonces(cl, w)
  {
  }

  lemma HttpKeepsInv(p: Points, cl: Clients, first: Shared, w: World, rid: Rid, env: Env)
    requires Inv(p, cl, first, w)
    ensures Inv(p, cl, first, Turn(p, cl, w, Http(rid, env)))
  {
    hide Sound, Advance, NoncesApart, Local, SpendsRight, FillsRight;
    if rid in cl.reqs {
      var base := |first.log|;
      var (sh', pc') := Advance(p.http, w.shared, cl.reqs[rid], w.pcs[rid], env);
      AdvanceRight(p.http, w.shared, base, cl.reqs[rid], w.pcs[rid], env);
      HttpKeepsNonces(cl, first, w, rid, sh', pc');
      forall r | r in cl.reqs && r != rid ensures Local(p.http, sh', base, cl.reqs[r], w.pcs[r]) {
        LocalSurvives(p.http, w.shared, sh', base, cl.reqs[r], w.pcs[r]);
      }
    }
  }

  // ----- a tool call moves

  lemma ToolKeepsNonces(p: Points, cl: Clients, first: Shared, w: World, id: M.Cid, env: M.Env)
    requires NoncesApart(cl, first, w)
    ensures NoncesApart(cl, first, Turn(p, cl, w, Tool(id, env)))
  {
    hide OneToOne, SpentBy, M.SpentBy, M.Step;
    var w' := Turn(p, cl, w, Tool(id, env));
    M.StepKeepsNonces(p.mcp, cl.calls, ToolPart(w), first.spent + HttpNonces(w).Values, id, env);
    SameNonces(cl, M.Step(p.mcp, cl.calls, ToolPart(w), id, env), ToolPart(w'));
    SamePcs(w, w');
  }

  lemma SameNonces(cl: Clients, s: M.State, s': M.State)
    requires s.pcs == s'.pcs
    ensures M.SpentBy(cl.calls, s) == M.SpentBy(cl.calls, s')
  {
  }

  lemma SamePcs(w: World, w': World)
    requires w'.pcs == w.pcs
    ensures HttpNonces(w') == HttpNonces(w)
  {
  }

  lemma ToolKeepsInv(p: Points, cl: Clients, first: Shared, w: World, id: M.Cid, env: M.Env)
    requires Inv(p, cl, first, w) && OneLog(p)
    ensures Inv(p, cl, first, Turn(p, cl, w, Tool(id, env)))
  {
    hide Sound, NoncesApart, Local, NextEntry, Evaluate;
    var w' := Turn(p, cl, w, Tool(id, env));
    ToolKeepsNonces(p, cl, first, w, id, env);
    if id in cl.calls && w.calls[id].Decided? {
      AppendKeepsSound(p.mcp.c, p.mcp.pub, w.shared.log, M.LogRequest(p.mcp, w.calls[id].d, env.stamp));
    }
    forall r | r in cl.reqs ensures Local(p.http, w'.shared, |first.log|, cl.reqs[r], w'.pcs[r]) {
      LocalSurvives(p.http, w.shared, w'.shared, |first.log|, cl.reqs[r], w.pcs[r]);
    }
  }

  // ----- every interleaving of both

  lemma {:induction false} EveryPlayKeepsInv(p: Points, cl: Clients, first: Shared, w: World, moves: seq<Move>)
    requires Inv(p, cl, first, w) && OneLog(p)
    ensures Inv(p, cl, first, Play(p, cl, w, moves))
    decreases |moves|
  {
    hide Inv, Turn;
    if moves == [] {
    } else {
      match moves[0] {
        case Http(rid, env) => HttpKeepsInv(p, cl, first, w, rid, env);
        case Tool(id, env) => ToolKeepsInv(p, cl, first, w, id, env);
      }
      EveryPlayKeepsInv(p, cl, first, Turn(p, cl, w, moves[0]), moves[1..]);
    }
  }

  lemma ReachableWorld(p: Points, cl: Clients, w: World, moves: seq<Move>)
    requires Opening(p, cl, w) && OneLog(p)
    ensures Inv(p, cl, w.shared, Play(p, cl, w, moves))
  {
    hide Play, Sound;
    assert HttpNonces(w) == map[] && ToolNonces(cl, w) == map[];
    EveryPlayKeepsInv(p, cl, w.shared, w, moves);
  }

  /** The chain stays sound and only grows, whichever side appends. */
  lemma OneChain(p: Points, cl: Clients, w: World, moves: seq<Move>)
    requires Opening(p, cl, w) && OneLog(p)
    ensures var w' := Play(p, cl, w, moves);
            Sound(p.http.c, p.http.pub, w'.shared.log) && w.shared.log <= w'.shared.log
  {
    hide Play, Sound, Local, NoncesApart;
    ReachableWorld(p, cl, w, moves);
  }

  /**
   Single use across the transports: the nonces spent are those spent before, those of allowed
   requests and those of allowed calls, disjointly and one each. So a token accepted by one side
   is refused by the other.
   */
  lemma OneUseAcrossTransports(p: Points, cl: Clients, w: World, moves: seq<Move>)
    requires Opening(p, cl, w) && OneLog(p)
    ensures var w' := Play(p, cl, w, moves);
            var http, tool := HttpNonces(w'), ToolNonces(cl, w');
            && w'.shared.spent == w.shared.spent + http.Values + tool.Values
            && w.shared.spent !! http.Values !! tool.Values
            && OneToOne(http) && OneToOne(tool)
            && |w'.shared.spent| == |w.shared.spent| + |http| + |tool|
  {
    hide Play, Sound, Local, OneToOne, SpentBy, M.SpentBy;
    ReachableWorld(p, cl, w, moves);
    var w' := Play(p, cl, w, moves);
    OneToOneSize(HttpNonces(w'));
    OneToOneSize(ToolNonces(cl, w'));
  }

  /** A served request has its receipt and its entry in the shared chain, whatever calls append around them. */
  lemma ServedAmongCalls(p: Points, cl: Clients, w: World, moves: seq<Move>, rid: Rid)
    requires Opening(p, cl, w) && OneLog(p)
    ensures var w' := Play(p, cl, w, moves);
            rid in w'.pcs && w'.pcs[rid].Served? ==>
              var pc := w'.pcs[rid];
              && rid in cl.reqs && Binds(p.http, cl.reqs[rid], pc.tok, pc.b)
              && HasReceipt(w'.shared, Decision(Allow, pc.b), pc.receipt)
              && HasEntry(w'.shared, Decision(Allow, pc.b), pc.entry)
              && |w.shared.log| <= pc.at <= pc.entry
  {
    hide Play, Sound, NoncesApart, ComputeBinding, MapDecision, ReceiptFor;
    ReachableWorld(p, cl, w, moves);
  }
}
