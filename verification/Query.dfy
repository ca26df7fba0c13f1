/** The recursive join every engine runs: pick a pattern, enumerate its candidates, unify, recurse.
    The engines differ only in how candidates are found, so the walk takes that as a parameter. */
module Query {
  import opened Facts
  import opened Orders
  import opened FrameOrder
  import opened Joins

  type Candidates = (Pattern, Binding) -> seq<Entry>

  datatype Options = Options(optimize: bool, distinct: bool, includeProvenance: bool, limit: Option<nat>)

  /** What a walk accumulates: answers, the first plan, and the two counters. */
  datatype Trail = Trail(output: seq<Frame>, firstPath: seq<Pattern>, candidateFacts: nat, bindingsEmitted: nat)

  datatype Row = Row(binding: Binding, provenance: seq<Name>)

  datatype QueryResult = QueryResult(rows: seq<Row>, firstPath: seq<Pattern>, candidateFacts: nat, bindingsEmitted: nat)

  const START: Frame := Frame(map[], [])
  const EMPTY_TRAIL: Trail := Trail([], [], 0, 0)

  /** The pattern with the fewest candidates, the first one on a tie. */
  function Cheapest(cand: Candidates, ps: seq<Pattern>, b: Binding): (i: nat)
    requires ps != []
    ensures i < |ps|
    ensures forall j :: 0 <= j < |ps| ==> |cand(ps[i], b)| <= |cand(ps[j], b)|
    ensures forall j :: 0 <= j < i ==> |cand(ps[i], b)| < |cand(ps[j], b)|
    decreases |ps|
  {
    if |ps| == 1 then 0
    else
      var i := Cheapest(cand, ps[..|ps| - 1], b);
      if |cand(ps[|ps| - 1], b)| < |cand(ps[i], b)| then |ps| - 1 else i
  }

  function Choose(cand: Candidates, o: Options, ps: seq<Pattern>, b: Binding): (i: nat)
    requires ps != []
    ensures i < |ps| && (!o.optimize ==> i == 0)
    ensures o.optimize ==> forall j :: 0 <= j < |ps| ==> |cand(ps[i], b)| <= |cand(ps[j], b)|
    ensures o.optimize ==> forall j :: 0 <= j < i ==> |cand(ps[i], b)| < |cand(ps[j], b)|
  {
    if o.optimize then Cheapest(cand, ps, b) else 0
  }

  predicate LimitReached(limit: Option<nat>, count: nat) {
    limit.Some? && count >= limit.value
  }

  function Grow(frame: Frame, b: Binding, slot: Name): Frame {
    Frame(b, frame.provenance + [slot])
  }

  // ---- The walk with its accumulators ----

  function Walk(cand: Candidates, o: Options, frame: Frame, remaining: seq<Pattern>, depth: nat, t: Trail): (Trail,
                bool)
    decreases 2 * |remaining|, 0
  {
    if remaining == [] then
      var t' := t.(output := t.output + [frame]);
      (t', LimitReached(o.limit, |t'.output|))
    else
      var i := Choose(cand, o, remaining, frame.binding);
      var es := cand(remaining[i], frame.binding);
      WalkEach(cand, o, frame, remaining[i], Without(remaining, i), depth, es, Enter(remaining[i], depth, |es|, t))
  }

  function Enter(p: Pattern, depth: nat, candidates: nat, t: Trail): Trail {
    t.(firstPath := if depth == |t.firstPath| then t.firstPath + [p] else t.firstPath,
       candidateFacts := t.candidateFacts + candidates)
  }

  function WalkEach(cand: Candidates, o: Options, frame: Frame, p: Pattern, rest: seq<Pattern>, depth: nat,
                    es: seq<Entry>, t: Trail): (Trail, bool)
    decreases 2 * |rest| + 1, |es|
  {
    if es == [] then (t, false)
    else match UnifyPattern(p, es[0].fact, frame.binding)
      case None => WalkEach(cand, o, frame, p, rest, depth, es[1..], t)
      case Some(b) =>
        var (t', stop) := Walk(cand, o, Grow(frame, b, es[0].slot), rest, depth + 1,
                               t.(bindingsEmitted := t.bindingsEmitted + 1));
        if stop then (t', true) else WalkEach(cand, o, frame, p, rest, depth, es[1..], t')
  }

  /** Keep the first frame of every binding. */
  function KeepFirst(frames: seq<Frame>, seen: set<Binding>): seq<Frame> {
    if frames == [] then []
    else if frames[0].binding in seen then KeepFirst(frames[1..], seen)
    else [frames[0]] + KeepFirst(frames[1..], seen + {frames[0].binding})
  }

  function ToRow(frame: Frame, includeProvenance: bool): Row {
    Row(frame.binding, if includeProvenance then frame.provenance else [])
  }

  function ToRows(frames: seq<Frame>, includeProvenance: bool): (rows: seq<Row>)
    ensures |rows| == |frames|
    ensures forall i :: 0 <= i < |rows| ==> rows[i] == ToRow(frames[i], includeProvenance)
  {
    seq(|frames|, i requires 0 <= i < |frames| => ToRow(frames[i], includeProvenance))
  }

  function Finish(t: Trail, o: Options): QueryResult {
    var kept := if o.distinct then KeepFirst(t.output, {}) else t.output;
    QueryResult(ToRows(Sort(FrameLe, kept), o.includeProvenance), t.firstPath, t.candidateFacts, t.bindingsEmitted)
  }

  function QueryOf(cand: Candidates, ps: seq<Pattern>, o: Options): QueryResult {
    Finish(Walk(cand, o, START, ps, 0, EMPTY_TRAIL).0, o)
  }

  // ---- The same walk, as the engines run it ----

  /** `lookup` and `count` may read an engine's indexes; `cand` is the function they are known to compute. */
  method WalkQuery(lookup: (Pattern, Binding) ~> seq<Entry>, count: (Pattern, Binding) ~> int, ghost cand: Candidates,
                   o: Options, frame: Frame, remaining: seq<Pattern>, depth: nat, trail: Trail)
    returns (out: Trail, stop: bool)
    requires forall p, b :: lookup.requires(p, b) && lookup(p, b) == cand(p, b)
    requires forall p, b :: count.requires(p, b) && count(p, b) == |cand(p, b)|
    ensures (out, stop) == Walk(cand, o, frame, remaining, depth, trail)
    decreases |remaining|
  {
    hide UnifyPattern, WalkEach, Cheapest;
    if remaining == [] {
      out := trail.(output := trail.output + [frame]);
      return out, LimitReached(o.limit, |out.output|);
    }
    var chosen := 0;
    if o.optimize {
      chosen := FewestCandidates(count, cand, remaining, frame.binding);
    }
    var pattern, rest := remaining[chosen], Without(remaining, chosen);
    var candidates := lookup(pattern, frame.binding);
    out := Enter(pattern, depth, |candidates|, trail);
    ghost var goal := Walk(cand, o, frame, remaining, depth, trail);
    assert candidates[0..] == candidates;
    for i := 0 to |candidates|
      invariant WalkEach(cand, o, frame, pattern, rest, depth, candidates[i..], out) == goal
    {
      WalkEachStep(cand, o, frame, pattern, rest, depth, candidates, i, out);
      match UnifyPattern(pattern, candidates[i].fact, frame.binding) {
        case None =>
        case Some(b) =>
          out := out.(bindingsEmitted := out.bindingsEmitted + 1);
          out, stop := WalkQuery(lookup, count, cand, o, Grow(frame, b, candidates[i].slot), rest, depth + 1, out);
          if stop {
            return;
          }
      }
    }
    WalkEachEnd(cand, o, frame, pattern, rest, depth, out);
    assert candidates[|candidates|..] == [];
    stop := false;
  }

  lemma WalkEachEnd(cand: Candidates, o: Options, frame: Frame, p: Pattern, rest: seq<Pattern>, depth: nat, t: Trail)
    ensures WalkEach(cand, o, frame, p, rest, depth, [], t) == (t, false)
  {
  }

  lemma WalkEachStep(cand: Candidates, o: Options, frame: Frame, p: Pattern, rest: seq<Pattern>, depth: nat,
                     es: seq<Entry>, i: nat, t: Trail)
    requires i < |es|
    ensures WalkEach(cand, o, frame, p, rest, depth, es[i..], t)
         == match UnifyPattern(p, es[i].fact, frame.binding)
            case None => WalkEach(cand, o, frame, p, rest, depth, es[i + 1..], t)
            case Some(b) =>
              var (t', stop) := Walk(cand, o, Grow(frame, b, es[i].slot), rest, depth + 1,
                                     t.(bindingsEmitted := t.bindingsEmitted + 1));
              if stop then (t', true) else WalkEach(cand, o, frame, p, rest, depth, es[i + 1..], t')
  {
    assert es[i..][0] == es[i] && es[i..][1..] == es[i + 1..];
  }

  method FewestCandidates(count: (Pattern, Binding) ~> int, ghost cand: Candidates, ps: seq<Pattern>, b: Binding)
    returns (best: nat)
    requires ps != []
    requires forall p, c :: count.requires(p, c) && count(p, c) == |cand(p, c)|
    ensures best == Cheapest(cand, ps, b)
  {
    best := 0;
    for i := 1 to |ps|
      invariant best == Cheapest(cand, ps[..i], b)
    {
      assert ps[..i + 1][..i] == ps[..i];
      if count(ps[i], b) < count(ps[best], b) {
        best := i;
      }
    }
    assert ps[..|ps|] == ps;
  }

  method RunQuery(lookup: (Pattern, Binding) ~> seq<Entry>, count: (Pattern, Binding) ~> int, ghost cand: Candidates,
                  ps: seq<Pattern>, o: Options) returns (result: QueryResult)
    requires forall p, b :: lookup.requires(p, b) && lookup(p, b) == cand(p, b)
    requires forall p, b :: count.requires(p, b) && count(p, b) == |cand(p, b)|
    ensures result == QueryOf(cand, ps, o)
  {
    var trail, _ := WalkQuery(lookup, count, cand, o, START, ps, 0, EMPTY_TRAIL);
    result := Finish(trail, o);
  }

  // ---- The answers alone ----

  /** Every answer of the unlimited walk, in the order the walk meets them. */
  function Answers(cand: Candidates, o: Options, frame: Frame, remaining: seq<Pattern>): seq<Frame>
    decreases 2 * |remaining|, 0
  {
    if remaining == [] then [frame]
    else
      var i := Choose(cand, o, remaining, frame.binding);
      AnswersEach(cand, o, frame, remaining[i], Without(remaining, i), cand(remaining[i], frame.binding))
  }

  function AnswersEach(cand: Candidates, o: Options, frame: Frame, p: Pattern, rest: seq<Pattern>,
                       es: seq<Entry>): seq<Frame>
    decreases 2 * |rest| + 1, |es| + 1
  {
    if es == [] then []
    else AnswersVia(cand, o, frame, p, rest, es[0]) + AnswersEach(cand, o, frame, p, rest, es[1..])
  }

  /** The answers that start by matching one entry. */
  function AnswersVia(cand: Candidates, o: Options, frame: Frame, p: Pattern, rest: seq<Pattern>, e: Entry): seq<Frame>
    decreases 2 * |rest| + 1, 0
  {
    match UnifyPattern(p, e.fact, frame.binding)
    case None => []
    case Some(b) => Answers(cand, o, Grow(frame, b, e.slot), rest)
  }

  /** The number of answers a limit lets through. A limit of zero still lets one through, because the
      walk counts after it has pushed. */
  function Quota(limit: Option<nat>): Option<nat> {
    match limit
    case None => None
    case Some(k) => Some(if k == 0 then 1 else k)
  }

  function Take(limit: Option<nat>, room: nat, all: seq<Frame>): seq<Frame> {
    if limit.Some? && |all| > room then all[..room] else all
  }

  function Room(limit: Option<nat>, count: nat): nat {
    if limit.Some? && Quota(limit).value > count then Quota(limit).value - count else 0
  }

  ghost predicate Collected(limit: Option<nat>, before: Trail, all: seq<Frame>, after: Trail, stop: bool) {
    && after.output == before.output + Take(limit, Room(limit, |before.output|), all)
    && (stop <==> limit.Some? && |all| >= Room(limit, |before.output|))
  }

  /** The walk collects exactly its answers, up to the limit, and stops exactly when the limit is met. */
  lemma {:induction false} WalkCollects(cand: Candidates, o: Options, frame: Frame, remaining: seq<Pattern>,
                                        depth: nat, t: Trail)
    requires o.limit.Some? ==> |t.output| < Quota(o.limit).value
    ensures var (t', stop) := Walk(cand, o, frame, remaining, depth, t);
      Collected(o.limit, t, Answers(cand, o, frame, remaining), t', stop)
    decreases 2 * |remaining|, 0
  {
    if remaining != [] {
      var i := Choose(cand, o, remaining, frame.binding);
      var es := cand(remaining[i], frame.binding);
      WalkEachCollects(cand, o, frame, remaining[i], Without(remaining, i), depth, es,
                       Enter(remaining[i], depth, |es|, t));
    }
  }

  lemma {:induction false} WalkEachCollects(cand: Candidates, o: Options, frame: Frame, p: Pattern, rest: seq<Pattern>,
                                            depth: nat, es: seq<Entry>, t: Trail)
    requires o.limit.Some? ==> |t.output| < Quota(o.limit).value
    ensures var (t', stop) := WalkEach(cand, o, frame, p, rest, depth, es, t);
      Collected(o.limit, t, AnswersEach(cand, o, frame, p, rest, es), t', stop)
    decreases 2 * |rest| + 1, |es|
  {
    if es != [] {
      hide UnifyPattern, Take, Room, Collected;
      match UnifyPattern(p, es[0].fact, frame.binding) {
        case None =>
          WalkEachCollects(cand, o, frame, p, rest, depth, es[1..], t);
        case Some(b) =>
          var t1 := t.(bindingsEmitted := t.bindingsEmitted + 1);
          WalkCollects(cand, o, Grow(frame, b, es[0].slot), rest, depth + 1, t1);
          var (t2, stop) := Walk(cand, o, Grow(frame, b, es[0].slot), rest, depth + 1, t1);
          var here := Answers(cand, o, Grow(frame, b, es[0].slot), rest);
          var later := AnswersEach(cand, o, frame, p, rest, es[1..]);
          if stop {
            CollectedStop(o.limit, t, t1, here, later, t2);
          } else {
            CollectedGo(o.limit, t, t1, here, t2);
            WalkEachCollects(cand, o, frame, p, rest, depth, es[1..], t2);
            var (t3, stop3) := WalkEach(cand, o, frame, p, rest, depth, es[1..], t2);
            CollectedThen(o.limit, t, t1, here, t2, later, t3, stop3);
          }
      }
    } else {
      CollectedNothing(o.limit, t);
    }
  }

  lemma CollectedNothing(limit: Option<nat>, t: Trail)
    requires limit.Some? ==> |t.output| < Quota(limit).value
    ensures Collected(limit, t, [], t, false)
  {
  }

  lemma CollectedGo(limit: Option<nat>, t: Trail, t1: Trail, here: seq<Frame>, t2: Trail)
    requires t.output == t1.output && Collected(limit, t1, here, t2, false)
    requires limit.Some? ==> |t.output| < Quota(limit).value
    ensures t2.output == t.output + here
    ensures limit.Some? ==> |t2.output| < Quota(limit).value
  {
  }

  lemma CollectedStop(limit: Option<nat>, t: Trail, t1: Trail, here: seq<Frame>, later: seq<Frame>, t2: Trail)
    requires t.output == t1.output && Collected(limit, t1, here, t2, true)
    ensures Collected(limit, t, here + later, t2, true)
  {
    var room := Room(limit, |t.output|);
    assert (here + later)[..room] == here[..room];
  }

  lemma CollectedThen(limit: Option<nat>, t: Trail, t1: Trail, here: seq<Frame>, t2: Trail, later: seq<Frame>,
                      t3: Trail, stop: bool)
    requires t.output == t1.output && Collected(limit, t1, here, t2, false)
    requires limit.Some? ==> |t.output| < Quota(limit).value
    requires Collected(limit, t2, later, t3, stop)
    ensures Collected(limit, t, here + later, t3, stop)
  {
    CollectedGo(limit, t, t1, here, t2);
    if limit.Some? && |later| > Room(limit, |t2.output|) {
      assert (here + later)[..Room(limit, |t.output|)] == here + later[..Room(limit, |t2.output|)];
    }
    assert t.output + here + Take(limit, Room(limit, |t2.output|), later)
        == t.output + (here + Take(limit, Room(limit, |t2.output|), later));
  }

  /** With duplicates kept, a limited query returns the sorted first frames of the unlimited enumeration:
      `max(1, k)` of them, or all of them when there are fewer. */
  lemma LimitedRows(cand: Candidates, ps: seq<Pattern>, o: Options, k: nat)
    requires !o.distinct && o.limit == Some(k)
    ensures var all := Answers(cand, o, START, ps);
      var quota := if k == 0 then 1 else k;
      QueryOf(cand, ps, o).rows == ToRows(Sort(FrameLe, if |all| > quota then all[..quota] else all), o.includeProvenance)
  {
    WalkCollects(cand, o, START, ps, 0, EMPTY_TRAIL);
    assert [] + Take(o.limit, Room(o.limit, 0), Answers(cand, o, START, ps)) == Take(o.limit, Room(o.limit, 0), Answers(cand, o, START, ps));
  }

  lemma UnlimitedOutput(cand: Candidates, ps: seq<Pattern>, o: Options)
    requires o.limit.None?
    ensures Walk(cand, o, START, ps, 0, EMPTY_TRAIL).0.output == Answers(cand, o, START, ps)
  {
    WalkCollects(cand, o, START, ps, 0, EMPTY_TRAIL);
  }
}
