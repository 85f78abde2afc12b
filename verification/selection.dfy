/**
  Tournament selection: `populationSize / 2` tournaments, each over a
  list of population slots drawn with replacement. Candidates are
  evaluated through the fitness cache, so the population comes back with
  the drawn slots evaluated and the fitness function has run once per
  distinct drawn slot that was not yet evaluated.
*/
module Selection {
  import opened Wrappers
  import opened Genome

  /** Every drawn slot is a slot of the population. */
  predicate SlotsIn(draw: seq<nat>, size: nat)
  {
    forall t | 0 <= t < |draw| :: draw[t] < size
  }

  /** Slots among `slots` whose fitness is not cached yet. */
  function Unevaluated(pop: seq<Individual>, slots: seq<nat>): set<nat>
  {
    set i | i in slots && i < |pop| && pop[i].fitness.None?
  }

  /** The population with the slots drawn in `slots` filled in, and the others untouched. */
  predicate EvaluatedAt(before: seq<Individual>, after: seq<Individual>, slots: seq<nat>, f: Fitness)
  {
    && |after| == |before|
    && forall i | 0 <= i < |before| :: after[i] == if i in slots then Evaluated(before[i], f) else before[i]
  }

  /** Outcome of one tournament. */
  datatype Tournament = Tournament(winner: nat, pos: nat, best: int, pop: seq<Individual>, calls: nat)

  /**
    `r` is the tournament over the first `n` drawn candidates: the winner
    is the candidate at position `pos`, it scores at least as much as
    every candidate and strictly more than every candidate drawn before
    it (the comparison is strict, so the earliest maximum wins ties); the
    candidates' slots have been evaluated, and the fitness function ran
    once per distinct candidate slot that had no cached fitness.
  */
  predicate Outcome(pop: seq<Individual>, draw: seq<nat>, f: Fitness, n: nat, r: Tournament)
    requires n <= |draw| && SlotsIn(draw, |pop|)
  {
    && r.pos < n && r.winner == draw[r.pos]
    && r.best == Score(pop[r.winner], f)
    && (forall t | 0 <= t < n :: Score(pop[draw[t]], f) <= r.best)
    && (forall t | 0 <= t < r.pos :: Score(pop[draw[t]], f) < r.best)
    && EvaluatedAt(pop, r.pop, draw[..n], f)
    && r.calls == |Unevaluated(pop, draw[..n])|
  }

  /** The loop of `selection`'s inner tournament after its first `n` candidates. */
  function Contest(pop: seq<Individual>, draw: seq<nat>, f: Fitness, n: nat): (r: Tournament)
    requires 1 <= n <= |draw| && SlotsIn(draw, |pop|)
    ensures Outcome(pop, draw, f, n, r)
    decreases n
  {
    if n == 1 then
      var e := Evaluate(pop[draw[0]], f);
      assert Unevaluated(pop, draw[..1]) == if e.called then {draw[0]} else {};
      EvaluateStep(pop, pop, draw, 1, f);
      Tournament(draw[0], 0, e.value, pop[draw[0] := e.ind], if e.called then 1 else 0)
    else
      Challenge(pop, draw, f, n, Contest(pop, draw, f, n - 1))
  }

  /**
    One round of the tournament: candidate `n - 1` is evaluated through
    the cache and replaces the current winner only if it scores strictly
    more.
  */
  function Challenge(pop: seq<Individual>, draw: seq<nat>, f: Fitness, n: nat, prev: Tournament): (r: Tournament)
    requires 2 <= n <= |draw| && SlotsIn(draw, |pop|)
    requires Outcome(pop, draw, f, n - 1, prev)
    ensures Outcome(pop, draw, f, n, r)
  {
    var idx := draw[n - 1];
    var e := Evaluate(prev.pop[idx], f);
    assert e.value == Score(pop[idx], f);
    var calls := prev.calls + if e.called then 1 else 0;
    CountStep(pop, draw, n, idx in draw[..n - 1]);
    assert idx in draw[..n - 1] ==> prev.pop[idx].fitness.Some?;
    var after := prev.pop[idx := e.ind];
    EvaluateStep(pop, prev.pop, draw, n, f);
    if e.value > prev.best then Tournament(idx, n - 1, e.value, after, calls)
    else prev.(pop := after, calls := calls)
  }

  /** How the set of unevaluated candidates grows by one drawn slot. */
  lemma CountStep(pop: seq<Individual>, draw: seq<nat>, n: nat, seen: bool)
    requires 1 <= n <= |draw| && SlotsIn(draw, |pop|)
    requires seen == (draw[n - 1] in draw[..n - 1])
    ensures var idx := draw[n - 1];
      |Unevaluated(pop, draw[..n])|
        == |Unevaluated(pop, draw[..n - 1])| + if !seen && pop[idx].fitness.None? then 1 else 0
  {
    var idx := draw[n - 1];
    assert draw[..n] == draw[..n - 1] + [idx];
    if !seen && pop[idx].fitness.None? {
      assert Unevaluated(pop, draw[..n]) == Unevaluated(pop, draw[..n - 1]) + {idx};
    } else {
      assert Unevaluated(pop, draw[..n]) == Unevaluated(pop, draw[..n - 1]);
    }
  }

  /** Evaluating the next drawn candidate extends the set of filled-in slots by that candidate. */
  lemma EvaluateStep(pop: seq<Individual>, mid: seq<Individual>, draw: seq<nat>, n: nat, f: Fitness)
    requires 1 <= n <= |draw| && SlotsIn(draw, |pop|)
    requires EvaluatedAt(pop, mid, draw[..n - 1], f)
    ensures EvaluatedAt(pop, mid[draw[n - 1] := Evaluate(mid[draw[n - 1]], f).ind], draw[..n], f)
  {
    assert draw[..n] == draw[..n - 1] + [draw[n - 1]];
  }

  /** One tournament over its whole draw list. */
  function RunTournament(pop: seq<Individual>, draw: seq<nat>, f: Fitness): (r: Tournament)
    requires |draw| >= 1 && SlotsIn(draw, |pop|)
    ensures r.pos < |draw| && r.winner == draw[r.pos]
    ensures forall t | 0 <= t < |draw| :: Score(pop[draw[t]], f) <= Score(pop[r.winner], f)
    ensures forall t | 0 <= t < r.pos :: Score(pop[draw[t]], f) < Score(pop[r.winner], f)
    ensures EvaluatedAt(pop, r.pop, draw, f)
    ensures r.calls == |Unevaluated(pop, draw)|
  {
    assert draw[..|draw|] == draw;
    Contest(pop, draw, f, |draw|)
  }

  /** The slots drawn by a list of tournaments, in draw order. */
  function Concat(ts: seq<seq<nat>>): seq<nat>
  {
    if |ts| == 0 then [] else Concat(ts[..|ts| - 1]) + ts[|ts| - 1]
  }

  /** Every tournament draws at least one candidate, each a slot of the population. */
  predicate TournamentsFit(ts: seq<seq<nat>>, size: nat)
  {
    forall i | 0 <= i < |ts| :: |ts[i]| >= 1 && SlotsIn(ts[i], size)
  }

  /** Outcome of the selection loop. */
  datatype Selected = Selected(parents: seq<Individual>, winners: seq<nat>, positions: seq<nat>,
                               pop: seq<Individual>, calls: nat)

  /**
    `r` is the selection after its first `n` tournaments: parent `i` is
    the evaluated copy of the slot that won tournament `i`, drawn at
    position `positions[i]`; it scores at least as much as each of that
    tournament's candidates and strictly more than those drawn before it.
    Every slot drawn so far is evaluated, and the fitness function ran
    once per distinct drawn slot that had no cached fitness.
  */
  predicate Chosen(pop: seq<Individual>, ts: seq<seq<nat>>, f: Fitness, n: nat, r: Selected)
    requires n <= |ts| && TournamentsFit(ts, |pop|)
  {
    ChosenParents(pop, ts, f, n, r) && ChosenCache(pop, ts, f, n, r)
  }

  predicate ChosenParents(pop: seq<Individual>, ts: seq<seq<nat>>, f: Fitness, n: nat, r: Selected)
    requires n <= |ts| && TournamentsFit(ts, |pop|)
  {
    && |r.parents| == n && |r.winners| == n && |r.positions| == n
    && (forall i | 0 <= i < n :: r.positions[i] < |ts[i]| && r.winners[i] == ts[i][r.positions[i]])
    && (forall i | 0 <= i < n :: r.parents[i] == Evaluated(pop[r.winners[i]], f))
    && (forall i, t | 0 <= i < n && 0 <= t < |ts[i]| :: Score(pop[ts[i][t]], f) <= Score(r.parents[i], f))
    && (forall i, t | 0 <= i < n && 0 <= t < r.positions[i] :: Score(pop[ts[i][t]], f) < Score(r.parents[i], f))
  }

  predicate ChosenCache(pop: seq<Individual>, ts: seq<seq<nat>>, f: Fitness, n: nat, r: Selected)
    requires n <= |ts| && TournamentsFit(ts, |pop|)
  {
    && EvaluatedAt(pop, r.pop, Concat(ts[..n]), f)
    && r.calls == |Unevaluated(pop, Concat(ts[..n]))|
  }

  /** The selection loop after its first `n` tournaments. */
  function SelectPrefix(pop: seq<Individual>, ts: seq<seq<nat>>, f: Fitness, n: nat): (r: Selected)
    requires n <= |ts| && TournamentsFit(ts, |pop|)
    ensures Chosen(pop, ts, f, n, r)
    decreases n
  {
    if n == 0 then
      assert Concat(ts[..0]) == [];
      Selected([], [], [], pop, 0)
    else
      Pick(pop, ts, f, n, SelectPrefix(pop, ts, f, n - 1))
  }

  /** Tournament `n - 1`, run on the population as the earlier tournaments left it. */
  function Pick(pop: seq<Individual>, ts: seq<seq<nat>>, f: Fitness, n: nat, prev: Selected): (r: Selected)
    requires 1 <= n <= |ts| && TournamentsFit(ts, |pop|)
    requires Chosen(pop, ts, f, n - 1, prev)
    ensures Chosen(pop, ts, f, n, r)
  {
    var t := RunTournament(prev.pop, ts[n - 1], f);
    var r := Selected(prev.parents + [t.pop[t.winner]], prev.winners + [t.winner], prev.positions + [t.pos],
                      t.pop, prev.calls + t.calls);
    PickParents(pop, ts, f, n, prev, t, r);
    PickCache(pop, ts, f, n, prev, t, r);
    r
  }

  lemma PickParents(pop: seq<Individual>, ts: seq<seq<nat>>, f: Fitness, n: nat, prev: Selected,
                    t: Tournament, r: Selected)
    requires 1 <= n <= |ts| && TournamentsFit(ts, |pop|)
    requires Chosen(pop, ts, f, n - 1, prev)
    requires t == RunTournament(prev.pop, ts[n - 1], f)
    requires r == Selected(prev.parents + [t.pop[t.winner]], prev.winners + [t.winner], prev.positions + [t.pos],
                           t.pop, prev.calls + t.calls)
    ensures ChosenParents(pop, ts, f, n, r)
  {
    Winner(pop, prev.pop, ts[n - 1], Concat(ts[..n - 1]), f, t);
    forall i | 0 <= i < n
      ensures r.positions[i] < |ts[i]| && r.winners[i] == ts[i][r.positions[i]]
      ensures r.parents[i] == Evaluated(pop[r.winners[i]], f)
    {
      if i < n - 1 {
        assert r.parents[i] == prev.parents[i] && r.winners[i] == prev.winners[i];
        assert r.positions[i] == prev.positions[i];
      }
    }
    forall i, x | 0 <= i < n && 0 <= x < |ts[i]|
      ensures Score(pop[ts[i][x]], f) <= Score(r.parents[i], f)
      ensures x < r.positions[i] ==> Score(pop[ts[i][x]], f) < Score(r.parents[i], f)
    {
      if i < n - 1 {
        assert r.parents[i] == prev.parents[i] && r.positions[i] == prev.positions[i];
      }
    }
  }

  /**
    A tournament run on a population whose cache is partly filled in
    picks the same winner, by the same scores, as on the original.
  */
  lemma Winner(pop: seq<Individual>, mid: seq<Individual>, draw: seq<nat>, slots: seq<nat>, f: Fitness,
               t: Tournament)
    requires EvaluatedAt(pop, mid, slots, f)
    requires |draw| >= 1 && SlotsIn(draw, |pop|) && t == RunTournament(mid, draw, f)
    ensures t.pos < |draw| && t.winner == draw[t.pos] && t.pop[t.winner] == Evaluated(pop[t.winner], f)
    ensures forall x | 0 <= x < |draw| :: Score(pop[draw[x]], f) <= Score(t.pop[t.winner], f)
    ensures forall x | 0 <= x < t.pos :: Score(pop[draw[x]], f) < Score(t.pop[t.winner], f)
  {
    SameScores(pop, mid, slots, f);
    forall x | 0 <= x < |draw|
      ensures Score(mid[draw[x]], f) == Score(pop[draw[x]], f)
    {
    }
  }

  /** Filling in the cache of some slots keeps every slot's score and its evaluated copy. */
  lemma SameScores(pop: seq<Individual>, mid: seq<Individual>, slots: seq<nat>, f: Fitness)
    requires EvaluatedAt(pop, mid, slots, f)
    ensures forall i | 0 <= i < |pop| :: Score(mid[i], f) == Score(pop[i], f) && Evaluated(mid[i], f) == Evaluated(pop[i], f)
  {
  }

  lemma PickCache(pop: seq<Individual>, ts: seq<seq<nat>>, f: Fitness, n: nat, prev: Selected,
                  t: Tournament, r: Selected)
    requires 1 <= n <= |ts| && TournamentsFit(ts, |pop|)
    requires Chosen(pop, ts, f, n - 1, prev)
    requires t == RunTournament(prev.pop, ts[n - 1], f)
    requires r.pop == t.pop && r.calls == prev.calls + t.calls
    ensures ChosenCache(pop, ts, f, n, r)
  {
    ConcatStep(ts, n);
    ComposeEvaluated(pop, prev.pop, t.pop, Concat(ts[..n - 1]), ts[n - 1], f);
  }

  /** The slots of the first `n` tournaments are those of the first `n - 1` followed by tournament `n - 1`'s. */
  lemma ConcatStep(ts: seq<seq<nat>>, n: nat)
    requires 1 <= n <= |ts|
    ensures Concat(ts[..n]) == Concat(ts[..n - 1]) + ts[n - 1]
  {
    assert ts[..n][..n - 1] == ts[..n - 1];
  }

  /**
    Evaluating the slots of `a` and then those of `b` evaluates the slots
    of `a + b`; the fitness function runs for the unevaluated slots of
    `a`, then for those of `b` that `a` did not already fill in.
  */
  lemma ComposeEvaluated(pop: seq<Individual>, mid: seq<Individual>, after: seq<Individual>,
                         a: seq<nat>, b: seq<nat>, f: Fitness)
    requires EvaluatedAt(pop, mid, a, f) && EvaluatedAt(mid, after, b, f)
    ensures EvaluatedAt(pop, after, a + b, f)
    ensures |Unevaluated(pop, a + b)| == |Unevaluated(pop, a)| + |Unevaluated(mid, b)|
  {
    var ua, ub := Unevaluated(pop, a), Unevaluated(mid, b);
    assert Unevaluated(pop, a + b) == ua + ub;
    assert ua * ub == {};
  }

  /**
    `selection`: one parent per tournament, each the evaluated copy of a
    drawn slot that scores at least as much as every candidate of its
    tournament and strictly more than the candidates drawn before it.
  */
  function Select(pop: seq<Individual>, ts: seq<seq<nat>>, f: Fitness): (r: Selected)
    requires TournamentsFit(ts, |pop|)
    ensures |r.parents| == |ts| && |r.winners| == |ts| && |r.positions| == |ts|
    ensures forall i | 0 <= i < |ts| :: r.positions[i] < |ts[i]| && r.winners[i] == ts[i][r.positions[i]]
    ensures forall i | 0 <= i < |ts| :: r.parents[i] == Evaluated(pop[r.winners[i]], f)
    ensures forall i, t | 0 <= i < |ts| && 0 <= t < |ts[i]| :: Score(pop[ts[i][t]], f) <= Score(r.parents[i], f)
    ensures forall i, t | 0 <= i < |ts| && 0 <= t < r.positions[i] :: Score(pop[ts[i][t]], f) < Score(r.parents[i], f)
    ensures EvaluatedAt(pop, r.pop, Concat(ts), f)
    ensures r.calls == |Unevaluated(pop, Concat(ts))|
  {
    assert ts[..|ts|] == ts;
    SelectPrefix(pop, ts, f, |ts|)
  }
}
