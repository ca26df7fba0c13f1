/** The rows a query returns, for every limit and with or without duplicates, said without the functions that make
    them; and what its counters count. */
module RowLaws {
  import opened Facts
  import opened Orders
  import opened FrameOrder
  import opened Query
  import opened QueryLaws
  import J = Joins

  // ---- Rows ----

  /** The answers a query gets to see: those of the enumeration, or the first max(1, k) of them under a limit of k. */
  function Met(cand: Candidates, ps: seq<Pattern>, o: Options): seq<Frame> {
    var all := Answers(cand, o, START, ps);
    match o.limit
    case None => all
    case Some(k) =>
      var quota := if k == 0 then 1 else k;
      if |all| > quota then all[..quota] else all
  }

  lemma RowsOfMet(cand: Candidates, ps: seq<Pattern>, o: Options)
    ensures QueryOf(cand, ps, o).rows == ToRows(Sort(FrameLe, Kept(Met(cand, ps, o), o)), o.includeProvenance)
  {
    WalkCollects(cand, o, START, ps, 0, EMPTY_TRAIL);
    var met := Take(o.limit, Room(o.limit, 0), Answers(cand, o, START, ps));
    assert [] + met == met == Met(cand, ps, o);
  }

  /** With duplicates kept, the rows are the answers met, sorted, each with its provenance if that was asked for. */
  lemma AllRows(cand: Candidates, ps: seq<Pattern>, o: Options)
    requires !o.distinct
    ensures var sorted, rows := Sort(FrameLe, Met(cand, ps, o)), QueryOf(cand, ps, o).rows;
      && multiset(sorted) == multiset(Met(cand, ps, o)) && Sorted(FrameLe, sorted) && |rows| == |sorted|
      && forall i :: 0 <= i < |rows| ==>
           rows[i] == Row(sorted[i].binding, if o.includeProvenance then sorted[i].provenance else [])
  {
    RowsOfMet(cand, ps, o);
    FrameLeTotal();
    SortSorts(FrameLe, Met(cand, ps, o));
  }

  /** The frame at `k` is the first with its binding. */
  ghost predicate IsFirst(frames: seq<Frame>, k: nat)
    requires k < |frames|
  {
    forall j :: 0 <= j < k ==> frames[j].binding != frames[k].binding
  }

  ghost predicate FirstIn(frames: seq<Frame>, f: Frame) {
    exists k :: 0 <= k < |frames| && frames[k] == f && IsFirst(frames, k)
  }

  lemma {:induction false} KeptAreFirst(frames: seq<Frame>, seen: set<Binding>, f: Frame)
    requires f in KeepFirst(frames, seen)
    ensures FirstIn(frames, f) && f.binding !in seen
    decreases |frames|
  {
    hide FirstIn;
    var first, rest := frames[0], frames[1..];
    if first.binding in seen {
      KeptAreFirst(rest, seen, f);
      FirstLater(frames, f);
    } else if f == first {
      FirstHere(frames);
    } else {
      KeptAreFirst(rest, seen + {first.binding}, f);
      FirstLater(frames, f);
    }
  }

  lemma FirstHere(frames: seq<Frame>)
    requires frames != []
    ensures FirstIn(frames, frames[0])
  {
    assert IsFirst(frames, 0);
  }

  lemma EachIsKept(frames: seq<Frame>, f: Frame)
    requires f in frames
    ensures f.binding in Bindings(KeepFirst(frames, {}))
  {
    var k :| 0 <= k < |frames| && frames[k] == f;
    assert Bindings(frames)[k] == f.binding;
    KeepFirstKeepsOnce(frames, {}, f.binding);
    assert f.binding in multiset(Bindings(KeepFirst(frames, {})));
  }

  lemma FirstLater(frames: seq<Frame>, f: Frame)
    requires frames != [] && FirstIn(frames[1..], f) && f.binding != frames[0].binding
    ensures FirstIn(frames, f)
  {
    var k :| 0 <= k < |frames[1..]| && frames[1..][k] == f && IsFirst(frames[1..], k);
    forall j | 0 <= j < k + 1 ensures frames[j].binding != frames[k + 1].binding {
      assert j > 0 ==> frames[1..][j - 1] == frames[j];
    }
    assert frames[k + 1] == f && IsFirst(frames, k + 1);
  }

  /** Without duplicates, under whatever limit, no two rows share a binding, every binding that was met has a row, the
      rows ascend, and each has the provenance of the first answer met with its binding. */
  lemma DistinctRows(cand: Candidates, ps: seq<Pattern>, o: Options)
    requires o.distinct
    ensures var met, rows := Met(cand, ps, o), QueryOf(cand, ps, o).rows;
      && (forall i, j :: 0 <= i < j < |rows| ==>
            rows[i].binding != rows[j].binding && BindingLe(rows[i].binding, rows[j].binding))
      && (forall b :: b in RowBindings(rows) <==> b in Bindings(met))
      && (forall i :: 0 <= i < |rows| ==>
            exists k :: 0 <= k < |met| && IsFirst(met, k)
                        && rows[i] == Row(met[k].binding, if o.includeProvenance then met[k].provenance else []))
  {
    var met, rows := Met(cand, ps, o), QueryOf(cand, ps, o).rows;
    var kept := KeepFirst(met, {});
    var sorted := Sort(FrameLe, kept);
    RowsOfMet(cand, ps, o);
    hide QueryOf, Met, KeepFirst, Sort, IsFirst;
    assert RowBindings(rows) == Bindings(sorted);
    SortedFramesSortBindings(kept);
    forall i, j | 0 <= i < j < |rows|
      ensures rows[i].binding != rows[j].binding && BindingLe(rows[i].binding, rows[j].binding)
    {
      KeepFirstKeepsOnce(met, {}, rows[i].binding);
      TwiceCounts(Bindings(sorted), i, j);
    }
    forall b ensures b in RowBindings(rows) <==> b in Bindings(met) {
      SameMembers(Bindings(sorted), Bindings(kept), b);
      if b in Bindings(kept) {
        var k :| 0 <= k < |kept| && Bindings(kept)[k] == b;
        KeptAreFirst(met, {}, kept[k]);
        FirstOccurs(met, kept[k]);
      }
      if b in Bindings(met) {
        var k :| 0 <= k < |met| && Bindings(met)[k] == b;
        EachIsKept(met, met[k]);
      }
    }
    forall i | 0 <= i < |rows|
      ensures exists k :: 0 <= k < |met| && IsFirst(met, k)
                          && rows[i] == Row(met[k].binding, if o.includeProvenance then met[k].provenance else [])
    {
      assert sorted[i] in multiset(sorted);
      KeptAreFirst(met, {}, sorted[i]);
      var k :| 0 <= k < |met| && met[k] == sorted[i] && IsFirst(met, k);
    }
  }

  lemma FirstOccurs(frames: seq<Frame>, f: Frame)
    requires FirstIn(frames, f)
    ensures f.binding in Bindings(frames)
  {
    var k :| 0 <= k < |frames| && frames[k] == f && IsFirst(frames, k);
    assert Bindings(frames)[k] == f.binding;
  }

  lemma TwiceCounts<T>(s: seq<T>, i: nat, j: nat)
    requires i < j < |s|
    ensures s[i] == s[j] ==> multiset(s)[s[i]] >= 2
  {
    assert s == s[..j] + ([s[j]] + s[j + 1..]);
    assert s[..j] == s[..i] + ([s[i]] + s[i + 1..j]);
  }

  lemma SameMembers<T>(a: seq<T>, b: seq<T>, x: T)
    requires multiset(a) == multiset(b)
    ensures x in a <==> x in b
  {
    assert x in a <==> x in multiset(a);
    assert x in b <==> x in multiset(b);
  }

  // ---- What the counters count ----

  /** What happens in a walk: a call picks a pattern that has so many candidates, a candidate unifies, an answer is met. */
  datatype Event = Picked(pattern: Pattern, depth: nat, candidates: nat) | Unified | Answered(frame: Frame)

  /** Everything that happens in the unlimited enumeration, in order. */
  function Events(cand: Candidates, o: Options, frame: Frame, remaining: seq<Pattern>, depth: nat): seq<Event>
    decreases 2 * |remaining|, 0
  {
    if remaining == [] then [Answered(frame)]
    else
      var i := Choose(cand, o, remaining, frame.binding);
      var es := cand(remaining[i], frame.binding);
      [Picked(remaining[i], depth, |es|)] + EventsEach(cand, o, frame, remaining[i], J.Without(remaining, i), depth, es)
  }

  function EventsEach(cand: Candidates, o: Options, frame: Frame, p: Pattern, rest: seq<Pattern>, depth: nat,
                      es: seq<Entry>): seq<Event>
    decreases 2 * |rest| + 1, |es|
  {
    if es == [] then []
    else
      (match UnifyPattern(p, es[0].fact, frame.binding)
       case None => []
       case Some(b) => [Unified] + Events(cand, o, Grow(frame, b, es[0].slot), rest, depth + 1))
      + EventsEach(cand, o, frame, p, rest, depth, es[1..])
  }

  function Absorb(t: Trail, e: Event): Trail {
    match e
    case Picked(p, depth, candidates) => Enter(p, depth, candidates, t)
    case Unified => t.(bindingsEmitted := t.bindingsEmitted + 1)
    case Answered(frame) => t.(output := t.output + [frame])
  }

  /** Take events in until an answer meets the limit. */
  function Play(limit: Option<nat>, t: Trail, events: seq<Event>): (Trail, bool)
    decreases |events|
  {
    if events == [] then (t, false)
    else
      var t' := Absorb(t, events[0]);
      if events[0].Answered? && LimitReached(limit, |t'.output|) then (t', true) else Play(limit, t', events[1..])
  }

  lemma {:induction false} PlayConcat(limit: Option<nat>, t: Trail, a: seq<Event>, b: seq<Event>)
    ensures var (t', stop) := Play(limit, t, a);
      Play(limit, t, a + b) == if stop then (t', true) else Play(limit, t', b)
    decreases |a|
  {
    hide Absorb;
    if a == [] {
      assert a + b == b;
    } else {
      assert (a + b)[0] == a[0] && (a + b)[1..] == a[1..] + b;
      PlayConcat(limit, Absorb(t, a[0]), a[1..], b);
    }
  }

  /** The walk takes in exactly the events of the enumeration, up to the answer that meets the limit. */
  lemma {:induction false} WalkPlays(cand: Candidates, o: Options, frame: Frame, remaining: seq<Pattern>, depth: nat, t: Trail)
    ensures Walk(cand, o, frame, remaining, depth, t) == Play(o.limit, t, Events(cand, o, frame, remaining, depth))
    decreases 2 * |remaining|, 0
  {
    if remaining == [] {
      assert [Answered(frame)][1..] == [];
    } else {
      var i := Choose(cand, o, remaining, frame.binding);
      var es := cand(remaining[i], frame.binding);
      var picked := Picked(remaining[i], depth, |es|);
      var later := EventsEach(cand, o, frame, remaining[i], J.Without(remaining, i), depth, es);
      assert ([picked] + later)[0] == picked && ([picked] + later)[1..] == later;
      WalkEachPlays(cand, o, frame, remaining[i], J.Without(remaining, i), depth, es, Enter(remaining[i], depth, |es|, t));
    }
  }

  lemma {:induction false} WalkEachPlays(cand: Candidates, o: Options, frame: Frame, p: Pattern, rest: seq<Pattern>,
                                         depth: nat, es: seq<Entry>, t: Trail)
    ensures WalkEach(cand, o, frame, p, rest, depth, es, t)
         == Play(o.limit, t, EventsEach(cand, o, frame, p, rest, depth, es))
    decreases 2 * |rest| + 1, |es|
  {
    hide UnifyPattern;
    if es != [] {
      match UnifyPattern(p, es[0].fact, frame.binding)
      case None =>
        WalkEachPlays(cand, o, frame, p, rest, depth, es[1..], t);
        assert [] + EventsEach(cand, o, frame, p, rest, depth, es[1..]) == EventsEach(cand, o, frame, p, rest, depth, es[1..]);
      case Some(b) =>
        var grown := Grow(frame, b, es[0].slot);
        var here, later := Events(cand, o, grown, rest, depth + 1), EventsEach(cand, o, frame, p, rest, depth, es[1..]);
        var t1 := t.(bindingsEmitted := t.bindingsEmitted + 1);
        WalkPlays(cand, o, grown, rest, depth + 1, t1);
        assert ([Unified] + here)[0] == Unified && ([Unified] + here)[1..] == here;
        assert Play(o.limit, t, [Unified] + here) == Play(o.limit, t1, here);
        PlayConcat(o.limit, t, [Unified] + here, later);
        WalkEachPlays(cand, o, frame, p, rest, depth, es[1..], Walk(cand, o, grown, rest, depth + 1, t1).0);
    }
  }

  // ---- Sums over the events that took place ----

  function CandidatesIn(events: seq<Event>): nat {
    if events == [] then 0
    else CandidatesIn(events[..|events| - 1])
         + if events[|events| - 1].Picked? then events[|events| - 1].candidates else 0
  }

  function UnifiedIn(events: seq<Event>): nat {
    if events == [] then 0
    else UnifiedIn(events[..|events| - 1]) + if events[|events| - 1].Unified? then 1 else 0
  }

  function AnsweredIn(events: seq<Event>): seq<Frame> {
    if events == [] then []
    else AnsweredIn(events[..|events| - 1]) + if events[|events| - 1].Answered? then [events[|events| - 1].frame] else []
  }

  /** The path holds, depth by depth, the pattern picked first at that depth. */
  ghost predicate IsFirstPath(events: seq<Event>, path: seq<Pattern>) {
    && (forall i :: 0 <= i < |events| && events[i].Picked? ==> events[i].depth < |path|)
    && forall d :: 0 <= d < |path| ==> FirstAt(events, d, path[d])
  }

  ghost predicate FirstAt(events: seq<Event>, d: nat, p: Pattern) {
    exists i :: 0 <= i < |events| && events[i].Picked? && events[i].depth == d && events[i].pattern == p && NoneBefore(events, d, i)
  }

  ghost predicate NoneBefore(events: seq<Event>, d: nat, n: nat)
    requires n <= |events|
  {
    forall j :: 0 <= j < n && events[j].Picked? ==> events[j].depth != d
  }

  ghost predicate Tallied(t: Trail, events: seq<Event>) {
    && t.output == AnsweredIn(events) && t.candidateFacts == CandidatesIn(events) && t.bindingsEmitted == UnifiedIn(events)
    && IsFirstPath(events, t.firstPath)
  }

  /** A pick is never more than one deeper than some pick before it. */
  ghost predicate Nested(events: seq<Event>, base: nat) {
    forall i :: 0 <= i < |events| && events[i].Picked? ==>
      events[i].depth >= base && (events[i].depth > base ==> PickedBefore(events, i, events[i].depth - 1))
  }

  ghost predicate PickedBefore(events: seq<Event>, n: nat, d: nat)
    requires n <= |events|
  {
    exists j :: 0 <= j < n && events[j].Picked? && events[j].depth == d
  }

  lemma SumsOne(t: Trail, events: seq<Event>, n: nat)
    requires n < |events|
    requires t.output == AnsweredIn(events[..n]) && t.candidateFacts == CandidatesIn(events[..n])
    requires t.bindingsEmitted == UnifiedIn(events[..n])
    ensures var t', more := Absorb(t, events[n]), events[..n + 1];
      t'.output == AnsweredIn(more) && t'.candidateFacts == CandidatesIn(more) && t'.bindingsEmitted == UnifiedIn(more)
  {
    assert events[..n + 1][..n] == events[..n];
  }

  lemma FirstStays(events: seq<Event>, n: nat, d: nat, p: Pattern)
    requires n < |events| && FirstAt(events[..n], d, p)
    ensures FirstAt(events[..n + 1], d, p)
  {
    var before, after := events[..n], events[..n + 1];
    var i :| 0 <= i < |before| && before[i].Picked? && before[i].depth == d && before[i].pattern == p && NoneBefore(before, d, i);
    assert after[i] == before[i] && NoneBefore(after, d, i);
  }

  lemma FirstNow(events: seq<Event>, n: nat, path: seq<Pattern>)
    requires n < |events| && events[n].Picked? && IsFirstPath(events[..n], path) && events[n].depth >= |path|
    ensures FirstAt(events[..n + 1], events[n].depth, events[n].pattern)
  {
    var after := events[..n + 1];
    forall j | 0 <= j < n && after[j].Picked? ensures after[j].depth != events[n].depth {
      assert after[j] == events[..n][j];
    }
    assert after[n] == events[n] && NoneBefore(after, events[n].depth, n);
  }

  lemma PathOne(t: Trail, events: seq<Event>, n: nat)
    requires n < |events| && Nested(events, 0) && IsFirstPath(events[..n], t.firstPath)
    ensures IsFirstPath(events[..n + 1], Absorb(t, events[n]).firstPath)
  {
    hide FirstAt, NoneBefore;
    var before, e, after := events[..n], events[n], events[..n + 1];
    var path := Absorb(t, e).firstPath;
    forall d | 0 <= d < |t.firstPath| ensures FirstAt(after, d, t.firstPath[d]) {
      FirstStays(events, n, d, t.firstPath[d]);
    }
    if e.Picked? {
      if e.depth > 0 {
        var j :| 0 <= j < n && events[j].Picked? && events[j].depth == e.depth - 1;
        assert before[j] == events[j];
      }
      if e.depth == |t.firstPath| {
        FirstNow(events, n, t.firstPath);
      }
    }
    forall i | 0 <= i < |after| && after[i].Picked? ensures after[i].depth < |path| {
      if i < n {
        assert after[i] == before[i];
      }
    }
  }

  lemma TallyOne(t: Trail, events: seq<Event>, n: nat)
    requires n < |events| && Nested(events, 0) && Tallied(t, events[..n])
    ensures Tallied(Absorb(t, events[n]), events[..n + 1])
  {
    hide Nested, IsFirstPath, Absorb;
    SumsOne(t, events, n);
    PathOne(t, events, n);
  }

  lemma NestedConcat(a: seq<Event>, b: seq<Event>, base: nat)
    requires Nested(a, base) && Nested(b, base)
    ensures Nested(a + b, base)
  {
    var all := a + b;
    forall i | 0 <= i < |all| && all[i].Picked?
      ensures all[i].depth >= base && (all[i].depth > base ==> PickedBefore(all, i, all[i].depth - 1))
    {
      if all[i].depth > base {
        if i < |a| {
          var j :| 0 <= j < i && a[j].Picked? && a[j].depth == all[i].depth - 1;
          assert all[j] == a[j];
        } else {
          assert all[i] == b[i - |a|];
          var j :| 0 <= j < i - |a| && b[j].Picked? && b[j].depth == all[i].depth - 1;
          assert all[|a| + j] == b[j];
        }
      }
    }
  }

  lemma NestedUnder(p: Pattern, depth: nat, candidates: nat, below: seq<Event>)
    requires Nested(below, depth + 1)
    ensures Nested([Picked(p, depth, candidates)] + below, depth)
  {
    var all := [Picked(p, depth, candidates)] + below;
    forall i | 0 < i < |all| && all[i].Picked?
      ensures all[i].depth > depth && PickedBefore(all, i, all[i].depth - 1)
    {
      assert all[i] == below[i - 1];
      if all[i].depth > depth + 1 {
        var j :| 0 <= j < i - 1 && below[j].Picked? && below[j].depth == all[i].depth - 1;
        assert all[j + 1] == below[j];
      } else {
        assert all[0].Picked? && all[0].depth == all[i].depth - 1;
      }
    }
  }

  lemma {:induction false} EventsNest(cand: Candidates, o: Options, frame: Frame, remaining: seq<Pattern>, depth: nat)
    ensures Nested(Events(cand, o, frame, remaining, depth), depth)
    decreases 2 * |remaining|, 0
  {
    if remaining != [] {
      hide Nested;
      var i := Choose(cand, o, remaining, frame.binding);
      var es := cand(remaining[i], frame.binding);
      EventsEachNest(cand, o, frame, remaining[i], J.Without(remaining, i), depth, es);
      NestedUnder(remaining[i], depth, |es|, EventsEach(cand, o, frame, remaining[i], J.Without(remaining, i), depth, es));
    }
  }

  lemma {:induction false} EventsEachNest(cand: Candidates, o: Options, frame: Frame, p: Pattern, rest: seq<Pattern>,
                                          depth: nat, es: seq<Entry>)
    ensures Nested(EventsEach(cand, o, frame, p, rest, depth, es), depth + 1)
    decreases 2 * |rest| + 1, |es|
  {
    if es != [] {
      hide Nested, UnifyPattern;
      EventsEachNest(cand, o, frame, p, rest, depth, es[1..]);
      var later := EventsEach(cand, o, frame, p, rest, depth, es[1..]);
      NothingNests(depth + 1);
      match UnifyPattern(p, es[0].fact, frame.binding)
      case None => assert [] + later == later;
      case Some(b) =>
        var here := Events(cand, o, Grow(frame, b, es[0].slot), rest, depth + 1);
        EventsNest(cand, o, Grow(frame, b, es[0].slot), rest, depth + 1);
        NestedConcat([Unified], here, depth + 1);
        NestedConcat([Unified] + here, later, depth + 1);
    }
  }

  lemma NothingNests(base: nat)
    ensures Nested([Unified], base)
  {
  }

  lemma NothingTallied()
    ensures Tallied(EMPTY_TRAIL, [])
  {
  }

  lemma AnsweredMore(events: seq<Event>, n: nat)
    requires n < |events|
    ensures AnsweredIn(events[..n + 1]) == AnsweredIn(events[..n]) + if events[n].Answered? then [events[n].frame] else []
  {
    assert events[..n + 1][..n] == events[..n];
  }

  /** The limit is met at the end of these events and not before. */
  ghost predicate MeetsLimit(limit: Option<nat>, events: seq<Event>) {
    && limit.Some? && |AnsweredIn(events)| == if limit.value == 0 then 1 else limit.value
  }

  lemma {:induction false} PlayTallies(limit: Option<nat>, t: Trail, events: seq<Event>, k: nat) returns (n: nat)
    requires k <= |events| && Nested(events, 0) && Tallied(t, events[..k])
    requires limit.Some? ==> |t.output| < Quota(limit).value
    ensures k <= n <= |events| && Tallied(Play(limit, t, events[k..]).0, events[..n])
    ensures Play(limit, t, events[k..]).1 <==> MeetsLimit(limit, events[..n])
    ensures n < |events| ==> MeetsLimit(limit, events[..n])
    decreases |events| - k
  {
    hide Nested, Tallied, AnsweredIn;
    TalliedOutput(t, events[..k]);
    if k == |events| {
      return k;
    }
    TallyOne(t, events, k);
    AnsweredMore(events, k);
    var t' := Absorb(t, events[k]);
    TalliedOutput(t', events[..k + 1]);
    assert events[k..][0] == events[k] && events[k..][1..] == events[k + 1..];
    if events[k].Answered? && LimitReached(limit, |t'.output|) {
      return k + 1;
    }
    n := PlayTallies(limit, t', events, k + 1);
  }

  lemma TalliedOutput(t: Trail, events: seq<Event>)
    requires Tallied(t, events)
    ensures t.output == AnsweredIn(events)
  {
  }

  /** A query's counters are sums over the events that take place: all of the enumeration, or those up to the answer
      that meets the limit. Its path is the pattern picked first at every depth. */
  lemma QueryTallies(cand: Candidates, ps: seq<Pattern>, o: Options) returns (n: nat)
    ensures var events, r := Events(cand, o, START, ps, 0), QueryOf(cand, ps, o);
      && n <= |events| && (n < |events| ==> MeetsLimit(o.limit, events[..n]))
      && AnsweredIn(events[..n]) == Met(cand, ps, o)
      && r.candidateFacts == CandidatesIn(events[..n]) && r.bindingsEmitted == UnifiedIn(events[..n])
      && IsFirstPath(events[..n], r.firstPath)
  {
    var events := Events(cand, o, START, ps, 0);
    WalkPlays(cand, o, START, ps, 0, EMPTY_TRAIL);
    EventsNest(cand, o, START, ps, 0);
    NothingTallied();
    assert events[..0] == [] && events[0..] == events;
    n := PlayTallies(o.limit, EMPTY_TRAIL, events, 0);
    WalkCollects(cand, o, START, ps, 0, EMPTY_TRAIL);
    var met := Take(o.limit, Room(o.limit, 0), Answers(cand, o, START, ps));
    assert [] + met == met == Met(cand, ps, o);
  }

  // ---- Lookups that find the same candidates in another order ----

  function AtomNames(ps: seq<Pattern>): set<Name> {
    if ps == [] then {}
    else (if ps[0].subject.VariableTerm? then {ps[0].subject.name} else {})
         + (if ps[0].target.VariableTerm? then {ps[0].target.name} else {}) + AtomNames(ps[1..])
  }

  function PredicateNames(ps: seq<Pattern>): set<Name> {
    if ps == [] then {}
    else (if ps[0].relation.PredicateVariable? then {ps[0].relation.name} else {}) + PredicateNames(ps[1..])
  }

  /** Every variable is bound to what it stands for. */
  ghost predicate Typed(b: Binding, atoms: set<Name>, predicates: set<Name>) {
    forall x :: x in b ==> (b[x].BoundPredicate? ==> x !in atoms) && (!b[x].BoundPredicate? ==> x !in predicates)
  }

  lemma UnifyKeepsTypes(p: Pattern, fact: Fact, b: Binding, atoms: set<Name>, predicates: set<Name>)
    requires Typed(b, atoms, predicates) && atoms !! predicates && UnifyPattern(p, fact, b).Some?
    requires p.subject.VariableTerm? ==> p.subject.name in atoms
    requires p.relation.PredicateVariable? ==> p.relation.name in predicates
    requires p.target.VariableTerm? ==> p.target.name in atoms
    ensures Typed(UnifyPattern(p, fact, b).value, atoms, predicates)
  {
  }

  /** Both lookups find the same candidates, each as often, for well-typed bindings. */
  ghost predicate SameBags(c1: Candidates, c2: Candidates, ps: seq<Pattern>, atoms: set<Name>, predicates: set<Name>) {
    forall p: Pattern, b: Binding :: p in ps && Typed(b, atoms, predicates) ==> multiset(c1(p, b)) == multiset(c2(p, b))
  }

  ghost function Below(cand: Candidates, o: Options, frame: Frame, p: Pattern, rest: seq<Pattern>, depth: nat): Entry -> multiset<Event> {
    (e: Entry) =>
      match UnifyPattern(p, e.fact, frame.binding)
      case None => multiset{}
      case Some(b) => multiset{Unified} + multiset(Events(cand, o, Grow(frame, b, e.slot), rest, depth + 1))
  }

  lemma {:induction false} EventsEachAreSum(cand: Candidates, o: Options, frame: Frame, p: Pattern, rest: seq<Pattern>,
                                            depth: nat, es: seq<Entry>)
    ensures multiset(EventsEach(cand, o, frame, p, rest, depth, es)) == J.SumSeq(es, Below(cand, o, frame, p, rest, depth))
    decreases |es|
  {
    if es != [] {
      hide UnifyPattern, Events;
      EventsEachAreSum(cand, o, frame, p, rest, depth, es[1..]);
    }
  }

  /** Without planning, what happens is the same bag of events, whatever order the lookups list their candidates in. */
  lemma {:induction false} SameEvents(c1: Candidates, c2: Candidates, o: Options, frame: Frame, ps: seq<Pattern>,
                                      atoms: set<Name>, predicates: set<Name>, depth: nat)
    requires !o.optimize && SameBags(c1, c2, ps, atoms, predicates) && Typed(frame.binding, atoms, predicates)
    requires AtomNames(ps) <= atoms && PredicateNames(ps) <= predicates && atoms !! predicates
    ensures multiset(Events(c1, o, frame, ps, depth)) == multiset(Events(c2, o, frame, ps, depth))
    decreases |ps|
  {
    hide SameBags, Typed, AtomNames, PredicateNames;
    if ps != [] {
      var p, rest := ps[0], ps[1..];
      var a, b := c1(p, frame.binding), c2(p, frame.binding);
      NamesFirst(ps, atoms, predicates);
      BagsFirst(c1, c2, ps, atoms, predicates, frame.binding);
      assert J.Without(ps, 0) == rest;
      assert |a| == |multiset(a)| == |multiset(b)| == |b|;
      var f, g := Below(c1, o, frame, p, rest, depth), Below(c2, o, frame, p, rest, depth);
      forall e: Entry ensures f(e) == g(e) {
        hide UnifyPattern, Events;
        if UnifyPattern(p, e.fact, frame.binding).Some? {
          UnifyKeepsTypes(p, e.fact, frame.binding, atoms, predicates);
          SameEvents(c1, c2, o, Grow(frame, UnifyPattern(p, e.fact, frame.binding).value, e.slot), rest, atoms, predicates, depth + 1);
        }
      }
      J.SumEqual(a, f, g);
      J.SumPermutation(a, b, g);
      EventsEachAreSum(c1, o, frame, p, rest, depth, a);
      EventsEachAreSum(c2, o, frame, p, rest, depth, b);
    }
  }

  lemma NamesFirst(ps: seq<Pattern>, atoms: set<Name>, predicates: set<Name>)
    requires ps != [] && AtomNames(ps) <= atoms && PredicateNames(ps) <= predicates
    ensures AtomNames(ps[1..]) <= atoms && PredicateNames(ps[1..]) <= predicates
    ensures ps[0].subject.VariableTerm? ==> ps[0].subject.name in atoms
    ensures ps[0].relation.PredicateVariable? ==> ps[0].relation.name in predicates
    ensures ps[0].target.VariableTerm? ==> ps[0].target.name in atoms
  {
  }

  lemma BagsFirst(c1: Candidates, c2: Candidates, ps: seq<Pattern>, atoms: set<Name>, predicates: set<Name>, b: Binding)
    requires ps != [] && SameBags(c1, c2, ps, atoms, predicates) && Typed(b, atoms, predicates)
    ensures multiset(c1(ps[0], b)) == multiset(c2(ps[0], b)) && SameBags(c1, c2, ps[1..], atoms, predicates)
  {
    hide Typed;
    assert ps[0] in ps;
  }

  // ---- Sums do not depend on the order ----

  lemma {:induction false} CandidatesConcat(a: seq<Event>, b: seq<Event>)
    ensures CandidatesIn(a + b) == CandidatesIn(a) + CandidatesIn(b)
    ensures UnifiedIn(a + b) == UnifiedIn(a) + UnifiedIn(b)
    decreases |b|
  {
    if b == [] {
      assert a + b == a;
    } else {
      assert (a + b)[..|a + b| - 1] == a + b[..|b| - 1];
      CandidatesConcat(a, b[..|b| - 1]);
    }
  }

  lemma WithoutOne(a: seq<Event>, b: seq<Event>, i: nat)
    requires a != [] && multiset(a) == multiset(b) && i < |b| && b[i] == a[0]
    ensures multiset(a[1..]) == multiset(b[..i] + b[i + 1..])
  {
    var rest, others := a[1..], b[..i] + b[i + 1..];
    assert a == [a[0]] + rest;
    assert b == b[..i] + ([b[i]] + b[i + 1..]);
    assert multiset(b) == multiset(others) + multiset{a[0]};
    assert multiset(rest) == multiset(a) - multiset{a[0]};
    assert multiset(others) == multiset(b) - multiset{a[0]};
  }

  lemma {:induction false} SameSums(a: seq<Event>, b: seq<Event>)
    requires multiset(a) == multiset(b)
    ensures CandidatesIn(a) == CandidatesIn(b) && UnifiedIn(a) == UnifiedIn(b)
    decreases |a|
  {
    if a == [] {
      assert |multiset(b)| == 0;
    } else {
      hide CandidatesIn, UnifiedIn;
      var e, rest := a[0], a[1..];
      SameMembers(a, b, e);
      var i :| 0 <= i < |b| && b[i] == e;
      var before, after := b[..i], b[i + 1..];
      WithoutOne(a, b, i);
      assert a == [e] + rest && b == before + ([e] + after);
      SameSums(rest, before + after);
      CandidatesConcat([e], rest);
      CandidatesConcat(before, after);
      CandidatesConcat(before, [e] + after);
      CandidatesConcat([e], after);
    }
  }

  /** Without planning the pattern picked at a depth is the one at that place. */
  lemma {:induction false} PicksInOrder(cand: Candidates, o: Options, frame: Frame, ps: seq<Pattern>, depth: nat, e: Event)
    requires !o.optimize && e in Events(cand, o, frame, ps, depth) && e.Picked?
    ensures depth <= e.depth < depth + |ps| && e.pattern == ps[e.depth - depth]
    decreases 2 * |ps|, 0
  {
    if ps != [] {
      assert J.Without(ps, 0) == ps[1..];
      var es := cand(ps[0], frame.binding);
      if e != Events(cand, o, frame, ps, depth)[0] {
        PicksEachInOrder(cand, o, frame, ps[0], ps[1..], depth, es, e);
      }
    }
  }

  lemma {:induction false} PicksEachInOrder(cand: Candidates, o: Options, frame: Frame, p: Pattern, rest: seq<Pattern>,
                                            depth: nat, es: seq<Entry>, e: Event)
    requires !o.optimize && e in EventsEach(cand, o, frame, p, rest, depth, es) && e.Picked?
    ensures depth + 1 <= e.depth < depth + 1 + |rest| && e.pattern == rest[e.depth - depth - 1]
    decreases 2 * |rest| + 1, |es|
  {
    hide UnifyPattern;
    if es != [] {
      if e in EventsEach(cand, o, frame, p, rest, depth, es[1..]) {
        PicksEachInOrder(cand, o, frame, p, rest, depth, es[1..], e);
      } else {
        PicksInOrder(cand, o, Grow(frame, UnifyPattern(p, es[0].fact, frame.binding).value, es[0].slot), rest, depth + 1, e);
      }
    }
  }

  lemma PathNotShorter(a: seq<Event>, b: seq<Event>, x: seq<Pattern>, y: seq<Pattern>)
    requires multiset(a) == multiset(b) && IsFirstPath(a, x) && IsFirstPath(b, y)
    ensures |x| <= |y|
  {
    if |x| > |y| {
      assert FirstAt(a, |y|, x[|y|]);
      var i :| 0 <= i < |a| && a[i].Picked? && a[i].depth == |y| && a[i].pattern == x[|y|] && NoneBefore(a, |y|, i);
      SameMembers(a, b, a[i]);
    }
  }

  lemma PathEntry(cand: Candidates, o: Options, ps: seq<Pattern>, path: seq<Pattern>, d: nat)
    requires !o.optimize && d < |path| && IsFirstPath(Events(cand, o, START, ps, 0), path)
    ensures d < |ps| && path[d] == ps[d]
  {
    hide Events;
    var events := Events(cand, o, START, ps, 0);
    assert FirstAt(events, d, path[d]);
    var i :| 0 <= i < |events| && events[i].Picked? && events[i].depth == d && events[i].pattern == path[d] && NoneBefore(events, d, i);
    PicksInOrder(cand, o, START, ps, 0, events[i]);
  }

  lemma PathsAgree(cand: Candidates, o: Options, ps: seq<Pattern>, path: seq<Pattern>)
    requires !o.optimize && IsFirstPath(Events(cand, o, START, ps, 0), path)
    ensures |path| <= |ps| && path == ps[..|path|]
  {
    hide IsFirstPath, Events;
    if path != [] {
      PathEntry(cand, o, ps, path, |path| - 1);
    }
    forall d | 0 <= d < |path| ensures path[d] == ps[..|path|][d] {
      PathEntry(cand, o, ps, path, d);
    }
  }

  /** Without planning and without a limit, lookups that find the same candidates give the same counters and path, as
      long as no variable stands both for an atom and for a predicate. */
  lemma CountersAgree(c1: Candidates, c2: Candidates, ps: seq<Pattern>, o: Options)
    requires !o.optimize && o.limit.None? && AtomNames(ps) !! PredicateNames(ps)
    requires SameBags(c1, c2, ps, AtomNames(ps), PredicateNames(ps))
    ensures var x, y := QueryOf(c1, ps, o), QueryOf(c2, ps, o);
      x.candidateFacts == y.candidateFacts && x.bindingsEmitted == y.bindingsEmitted && x.firstPath == y.firstPath
  {
    hide SameBags, QueryOf, IsFirstPath, Events;
    var a, b := Events(c1, o, START, ps, 0), Events(c2, o, START, ps, 0);
    SameEvents(c1, c2, o, START, ps, AtomNames(ps), PredicateNames(ps), 0);
    var n := QueryTallies(c1, ps, o);
    var k := QueryTallies(c2, ps, o);
    assert a[..n] == a && b[..k] == b;
    SameSums(a, b);
    PathNotShorter(a, b, QueryOf(c1, ps, o).firstPath, QueryOf(c2, ps, o).firstPath);
    PathNotShorter(b, a, QueryOf(c2, ps, o).firstPath, QueryOf(c1, ps, o).firstPath);
    PathsAgree(c1, o, ps, QueryOf(c1, ps, o).firstPath);
    PathsAgree(c2, o, ps, QueryOf(c2, ps, o).firstPath);
  }
}
