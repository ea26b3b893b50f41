/** The generation loop of algorithm.py:229-257: evaluate and rank the
    population, stop at the first generation whose best score does not
    improve, breed fifty children from parents drawn out of the top half
    by a prefix/suffix splice, and mutate every child. The random draws
    are oracles indexed by generation and position. */
module Evolution {
  import opened Wrappers
  import opened Seqs
  import opened Records
  import opened Fitness
  import opened Chromosomes
  import Occupancy

  /** One child of the crossover (algorithm.py:248; algorithm.py:250 is
      the same splice with the parents swapped). Parents of one length
      give a child of that length that agrees with the first parent
      before the cut and with the second from the cut on; a parent
      spliced with itself gives itself back. */
  function Splice(a: seq<Placement>, b: seq<Placement>, k: nat): (r: seq<Placement>)
    ensures |a| == |b| && k <= |a| ==>
      |r| == |a| && forall i :: 0 <= i < |r| ==> r[i] == if i < k then a[i] else b[i]
    ensures a == b ==> r == a
  {
    Take(a, k) + Drop(b, k)
  }

  /** Both children of a cut drawn as randint(1, len(a) - 1) keep every
      entry well placed and are at least as long as the shorter parent. */
  lemma SpliceKeeps(a: seq<Placement>, b: seq<Placement>, k: nat, classes: seq<ClassRec>, numRooms: int)
    requires 1 <= k < |a|
    requires AllWellPlaced(a, classes, numRooms) && AllWellPlaced(b, classes, numRooms)
    ensures AllWellPlaced(Splice(a, b, k), classes, numRooms) && AllWellPlaced(Splice(b, a, k), classes, numRooms)
    ensures |Splice(a, b, k)| >= Occupancy.Min(|a|, |b|) && |Splice(b, a, k)| >= Occupancy.Min(|a|, |b|)
  {
    var c1, c2 := Splice(a, b, k), Splice(b, a, k);
    forall i | 0 <= i < |c1| ensures WellPlaced(c1[i], classes, numRooms) {
      if i < k { assert c1[i] == a[i]; } else { assert c1[i] == b[i]; }
    }
    forall i | 0 <= i < |c2| ensures WellPlaced(c2[i], classes, numRooms) {
      if i < |Take(b, k)| { assert c2[i] == b[i]; } else { assert c2[i] == a[i - |Take(b, k)| + k]; }
    }
  }

  /** A population member as the loop keeps it. */
  predicate Fit(s: seq<Placement>, classes: seq<ClassRec>, numRooms: int)
  {
    AllWellPlaced(s, classes, numRooms) && |s| >= PopulationSize
  }

  /** A chromosome with its fitness, as in fitness_scores. */
  datatype Scored = Scored(schedule: seq<Placement>, fitness: int)

  predicate SortedDesc(xs: seq<Scored>)
  {
    forall i, j :: 0 <= i < j < |xs| ==> xs[i].fitness >= xs[j].fitness
  }

  /** Inserts x ahead of the first element whose fitness is not above its own. */
  function Insert(x: Scored, ys: seq<Scored>): (r: seq<Scored>)
    ensures |r| == |ys| + 1 && multiset(r) == multiset(ys) + multiset{x}
  {
    if ys == [] || ys[0].fitness <= x.fitness then [x] + ys
    else
      var rest := Insert(x, ys[1..]);
      assert ys == [ys[0]] + ys[1..];
      [ys[0]] + rest
  }

  /** Inserting below a bound that x and every element of ys respect
      gives a list that respects it too. */
  lemma {:induction false} InsertBounded(x: Scored, ys: seq<Scored>, bound: int)
    requires x.fitness <= bound && forall i :: 0 <= i < |ys| ==> ys[i].fitness <= bound
    ensures forall i :: 0 <= i < |Insert(x, ys)| ==> Insert(x, ys)[i].fitness <= bound
  {
    if ys != [] && ys[0].fitness > x.fitness {
      assert forall i :: 0 <= i < |ys[1..]| ==> ys[1..][i] == ys[i + 1];
      InsertBounded(x, ys[1..], bound);
    }
  }

  /** Insertion keeps a ranking sorted. */
  lemma {:induction false} InsertSorted(x: Scored, ys: seq<Scored>)
    requires SortedDesc(ys)
    ensures SortedDesc(Insert(x, ys))
  {
    if ys != [] && ys[0].fitness > x.fitness {
      var rest := Insert(x, ys[1..]);
      assert forall i :: 0 <= i < |ys[1..]| ==> ys[1..][i] == ys[i + 1];
      InsertSorted(x, ys[1..]);
      InsertBounded(x, ys[1..], ys[0].fitness);
      var r := [ys[0]] + rest;
      assert Insert(x, ys) == r;
      forall i, j | 0 <= i < j < |r| ensures r[i].fitness >= r[j].fitness {
        assert r[j] == rest[j - 1];
        if i > 0 { assert r[i] == rest[i - 1]; }
      }
    }
  }

  /** fitness_scores.sort(key=lambda x: x[1], reverse=True) keeps the
      entries: a permutation (SortedByFitness proves the order). */
  function SortByFitness(xs: seq<Scored>): (r: seq<Scored>)
    ensures |r| == |xs| && multiset(r) == multiset(xs)
  {
    if xs == [] then []
    else
      assert xs == [xs[0]] + xs[1..];
      Insert(xs[0], SortByFitness(xs[1..]))
  }

  /** The sort leaves the entries in non-increasing order of fitness. */
  lemma {:induction false} SortedByFitness(xs: seq<Scored>)
    ensures SortedDesc(SortByFitness(xs))
  {
    if xs != [] {
      SortedByFitness(xs[1..]);
      InsertSorted(xs[0], SortByFitness(xs[1..]));
    }
  }

  /** The elements of xs with the given fitness, in their order in xs. */
  function WithFitness(xs: seq<Scored>, f: int): seq<Scored>
  {
    if xs == [] then [] else (if xs[0].fitness == f then [xs[0]] else []) + WithFitness(xs[1..], f)
  }

  lemma {:induction false} InsertWithFitness(x: Scored, ys: seq<Scored>, f: int)
    ensures WithFitness(Insert(x, ys), f) == (if x.fitness == f then [x] else []) + WithFitness(ys, f)
  {
    if ys != [] && ys[0].fitness > x.fitness {
      var rest := Insert(x, ys[1..]);
      var head := if ys[0].fitness == f then [ys[0]] else [];
      InsertWithFitness(x, ys[1..], f);
      assert Insert(x, ys) == [ys[0]] + rest;
      assert ([ys[0]] + rest)[1..] == rest;
      assert WithFitness(Insert(x, ys), f) == head + WithFitness(rest, f);
      assert WithFitness(ys, f) == head + WithFitness(ys[1..], f);
    } else {
      assert Insert(x, ys) == [x] + ys;
      assert ([x] + ys)[1..] == ys;
    }
  }

  /** The sort is stable, as Python's is with reverse=True: chromosomes of
      equal fitness keep their order in the population, so the top entry
      is the first chromosome of best fitness. */
  lemma {:induction false} SortIsStable(xs: seq<Scored>, f: int)
    ensures WithFitness(SortByFitness(xs), f) == WithFitness(xs, f)
  {
    if xs != [] {
      SortIsStable(xs[1..], f);
      InsertWithFitness(xs[0], SortByFitness(xs[1..]), f);
    }
  }

  /** The sort neither adds nor drops a chromosome. */
  lemma SortKeepsMembers(xs: seq<Scored>)
    ensures forall z :: z in SortByFitness(xs) <==> z in xs
  {
    var r := SortByFitness(xs);
    forall z ensures z in r <==> z in xs {
      calc {
        z in r;
        z in multiset(r);
        z in multiset(xs);
        z in xs;
      }
    }
  }

  /** The top of the ranking is a chromosome of the population whose
      fitness no other reaches beyond. */
  lemma RankedTop(xs: seq<Scored>)
    requires |xs| > 0
    ensures SortByFitness(xs)[0] in xs
    ensures forall z :: z in xs ==> z.fitness <= SortByFitness(xs)[0].fitness
  {
    var r := SortByFitness(xs);
    SortedByFitness(xs);
    SortKeepsMembers(xs);
    assert r[0] in r;
    forall z | z in xs ensures z.fitness <= r[0].fitness {
      var i :| 0 <= i < |r| && r[i] == z;
      assert i == 0 || r[0].fitness >= r[i].fitness;
    }
  }

  /** The list of algorithm.py:233: each chromosome paired with its fitness. */
  function Evaluated(population: seq<seq<Placement>>, numRooms: int): (r: seq<Scored>)
    requires forall j :: 0 <= j < |population| ==> Scoreable(population[j], numRooms)
    ensures |r| == |population|
  {
    seq(|population|, j requires 0 <= j < |population| => Scored(population[j], Score(population[j], numRooms)))
  }

  /** The ranking lines 233-234 of algorithm.py make of a population:
      its evaluated list, sorted by fitness. */
  function Ranking(population: seq<seq<Placement>>, numRooms: int): (r: seq<Scored>)
    requires forall j :: 0 <= j < |population| ==> Scoreable(population[j], numRooms)
    ensures |r| == |population|
  {
    SortByFitness(Evaluated(population, numRooms))
  }

  /** [(chromosome, fitness(chromosome)) for chromosome in population] (algorithm.py:233). */
  method Evaluate(population: seq<seq<Placement>>, numRooms: int) returns (fitnessScores: seq<Scored>)
    requires forall j :: 0 <= j < |population| ==> Scoreable(population[j], numRooms)
    ensures |fitnessScores| == |population|
    ensures forall j :: 0 <= j < |population| ==>
      fitnessScores[j].schedule == population[j] && fitnessScores[j].fitness == Score(population[j], numRooms)
    ensures fitnessScores == Evaluated(population, numRooms)
  {
    fitnessScores := [];
    for j := 0 to |population|
      invariant |fitnessScores| == j
      invariant forall i :: 0 <= i < j ==>
        fitnessScores[i].schedule == population[i] && fitnessScores[i].fitness == Score(population[i], numRooms)
    {
      var f := ComputeFitness(population[j], numRooms);
      fitnessScores := fitnessScores + [Scored(population[j], f)];
    }
  }

  /** parents (algorithm.py:242): one draw from the top half of the ranking
      per pick; in a sorted ranking every parent is at least as fit as
      every chromosome outside the top half. */
  function PickParents(ranked: seq<Scored>, picks: seq<nat>): (r: seq<Scored>)
    requires |ranked| >= PopulationSize / 2
    requires forall j :: 0 <= j < |picks| ==> picks[j] < PopulationSize / 2
    ensures |r| == |picks|
    ensures forall j :: 0 <= j < |r| ==> r[j] in ranked[..PopulationSize / 2]
    ensures SortedDesc(ranked) ==>
      forall j, i :: 0 <= j < |r| && PopulationSize / 2 <= i < |ranked| ==> r[j].fitness >= ranked[i].fitness
  {
    seq(|picks|, j requires 0 <= j < |picks| => ranked[picks[j]])
  }

  /** A child of pair j of the crossover loop of algorithm.py:245-251:
      parents are paired in order and both children of a pair are cut at
      the same drawn point; the second child swaps the parents' roles. */
  function Child(parents: seq<Scored>, generation: nat, cut: (nat, nat, nat) -> nat, j: nat, second: bool): seq<Placement>
    requires 2 * j + 1 < |parents|
  {
    var a, b := parents[2 * j].schedule, parents[2 * j + 1].schedule;
    var point := cut(generation, j, |a|);
    if second then Splice(b, a, point) else Splice(a, b, point)
  }

  /** The invariant of the crossover loop survives appending pair j. */
  lemma PairAppended(parents: seq<Scored>, classes: seq<ClassRec>, numRooms: int, generation: nat,
                     cut: (nat, nat, nat) -> nat, offspring: seq<seq<Placement>>, j: nat)
    requires 2 * j + 1 < |parents| && |offspring| == 2 * j
    requires forall i :: 0 <= i < j ==>
      offspring[2 * i] == Child(parents, generation, cut, i, false) && offspring[2 * i + 1] == Child(parents, generation, cut, i, true)
    requires forall k :: 0 <= k < |offspring| ==> Fit(offspring[k], classes, numRooms)
    requires Fit(Child(parents, generation, cut, j, false), classes, numRooms) && Fit(Child(parents, generation, cut, j, true), classes, numRooms)
    ensures var r := offspring + [Child(parents, generation, cut, j, false), Child(parents, generation, cut, j, true)];
      && (forall i :: 0 <= i <= j ==>
        r[2 * i] == Child(parents, generation, cut, i, false) && r[2 * i + 1] == Child(parents, generation, cut, i, true))
      && (forall k :: 0 <= k < |r| ==> Fit(r[k], classes, numRooms))
  {
    var r := offspring + [Child(parents, generation, cut, j, false), Child(parents, generation, cut, j, true)];
    forall i | 0 <= i <= j
      ensures r[2 * i] == Child(parents, generation, cut, i, false) && r[2 * i + 1] == Child(parents, generation, cut, i, true)
    {
      if i < j {
        assert r[2 * i] == offspring[2 * i] && r[2 * i + 1] == offspring[2 * i + 1];
      }
    }
    forall k | 0 <= k < |r| ensures Fit(r[k], classes, numRooms) {
      if k < |offspring| { assert r[k] == offspring[k]; }
    }
  }

  /** Entry k of offspring as the crossover loop extends it: pair k / 2,
      the second child when k is odd. */
  function Offspring(parents: seq<Scored>, generation: nat, cut: (nat, nat, nat) -> nat, k: nat): seq<Placement>
    requires k < 2 * (|parents| / 2)
  {
    Child(parents, generation, cut, k / 2, k % 2 == 1)
  }

  /** The offspring list the crossover loop builds from the parents. */
  function Bred(parents: seq<Scored>, generation: nat, cut: (nat, nat, nat) -> nat): (r: seq<seq<Placement>>)
    ensures |r| == 2 * (|parents| / 2)
  {
    seq(2 * (|parents| / 2), k requires 0 <= k < 2 * (|parents| / 2) => Offspring(parents, generation, cut, k))
  }

  /** The crossover loop: two children per pair that zip makes (an odd
      last parent is dropped), in pair order, each a well-placed splice at
      least as long as the population's schedules. */
  method Breed(parents: seq<Scored>, classes: seq<ClassRec>, numRooms: int, generation: nat, cut: (nat, nat, nat) -> nat)
    returns (offspring: seq<seq<Placement>>)
    requires forall g: nat, j: nat, n: nat :: n >= 2 ==> 1 <= cut(g, j, n) < n
    requires forall j :: 0 <= j < |parents| ==> Fit(parents[j].schedule, classes, numRooms)
    ensures |offspring| == 2 * (|parents| / 2)
    ensures forall j :: 0 <= j < |parents| / 2 ==>
      offspring[2 * j] == Child(parents, generation, cut, j, false) && offspring[2 * j + 1] == Child(parents, generation, cut, j, true)
    ensures forall k :: 0 <= k < |offspring| ==> Fit(offspring[k], classes, numRooms)
    ensures offspring == Bred(parents, generation, cut)
  {
    var pairs := |parents| / 2;
    offspring := [];
    for j := 0 to pairs
      invariant |offspring| == 2 * j
      invariant forall i :: 0 <= i < j ==>
        offspring[2 * i] == Child(parents, generation, cut, i, false) && offspring[2 * i + 1] == Child(parents, generation, cut, i, true)
      invariant forall k :: 0 <= k < |offspring| ==> Fit(offspring[k], classes, numRooms)
    {
      var parent1, parent2 := parents[2 * j].schedule, parents[2 * j + 1].schedule;
      var crossoverPoint := cut(generation, j, |parent1|);
      var child1 := Splice(parent1, parent2, crossoverPoint);
      var child2 := Splice(parent2, parent1, crossoverPoint);
      SpliceKeeps(parent1, parent2, crossoverPoint, classes, numRooms);
      PairAppended(parents, classes, numRooms, generation, cut, offspring, j);
      offspring := offspring + [child1, child2];
    }
    forall k | 0 <= k < |offspring| ensures offspring[k] == Offspring(parents, generation, cut, k) {
      if k % 2 == 0 { assert k == 2 * (k / 2); } else { assert k == 2 * (k / 2) + 1; }
    }
  }

  /** One pass of the mutation loop (algorithm.py:254-255) on one child:
      random.random() lies in [0, 1) and MUTATION_RATE is 1.5, so the child
      is always mutated. A draw that does not fit the child stands for a
      retry loop that never ends, and is reported as stuck. */
  method MutateChild(child0: seq<Placement>, classes: seq<ClassRec>, numRooms: int, d: MutateDraw, r: real)
    returns (m: seq<Placement>, stuck: bool)
    requires 0.0 <= r < 1.0 && AllWellPlaced(child0, classes, numRooms)
    ensures stuck <==> !DrawFitsFor(child0, classes, numRooms, d)
    ensures !stuck ==> m == Mutated(child0, classes, numRooms, d)
  {
    var child := new Chromosome.WithSchedule(classes, numRooms, child0);
    stuck := false;
    if r < MutationRate {
      if !child.DrawFits(d) {
        stuck := true;
        return child0, stuck;
      }
      child.Mutate(d);
    }
    m := child.schedule;
  }

  /** Some child draws a mutation that does not fit it. */
  predicate AnyStuck(children: seq<seq<Placement>>, classes: seq<ClassRec>, numRooms: int, generation: nat,
                     mutation: (nat, nat, seq<Placement>) -> MutateDraw)
  {
    exists j :: 0 <= j < |children| && !DrawFitsFor(children[j], classes, numRooms, mutation(generation, j, children[j]))
  }

  /** mutated holds every child mutated with its own draw. */
  predicate AllMutated(mutated: seq<seq<Placement>>, children: seq<seq<Placement>>, classes: seq<ClassRec>, numRooms: int,
                       generation: nat, mutation: (nat, nat, seq<Placement>) -> MutateDraw)
  {
    && |mutated| == |children|
    && forall j :: 0 <= j < |children| ==>
      && DrawFitsFor(children[j], classes, numRooms, mutation(generation, j, children[j]))
      && mutated[j] == Mutated(children[j], classes, numRooms, mutation(generation, j, children[j]))
  }

  /** The mutation loop of algorithm.py:253-255: every child mutated with
      its draw, or stuck at the first child whose draw does not fit it. */
  method MutateAll(children: seq<seq<Placement>>, classes: seq<ClassRec>, numRooms: int, generation: nat,
                   roll: (nat, nat) -> real, mutation: (nat, nat, seq<Placement>) -> MutateDraw)
    returns (mutated: seq<seq<Placement>>, stuck: bool)
    requires forall g: nat, j: nat :: 0.0 <= roll(g, j) < 1.0
    requires forall j :: 0 <= j < |children| ==> AllWellPlaced(children[j], classes, numRooms)
    ensures stuck <==> AnyStuck(children, classes, numRooms, generation, mutation)
    ensures !stuck ==> AllMutated(mutated, children, classes, numRooms, generation, mutation)
  {
    mutated := [];
    stuck := false;
    for j := 0 to |children|
      invariant |mutated| == j
      invariant forall i :: 0 <= i < j ==>
        DrawFitsFor(children[i], classes, numRooms, mutation(generation, i, children[i])) &&
        mutated[i] == Mutated(children[i], classes, numRooms, mutation(generation, i, children[i]))
    {
      var m, childStuck := MutateChild(children[j], classes, numRooms, mutation(generation, j, children[j]), roll(generation, j));
      if childStuck {
        stuck := true;
        return;
      }
      mutated := mutated + [m];
    }
  }

  /** population = [Chromosome(semester_data) for _ in range(POPULATION_SIZE)] (algorithm.py:229). */
  method InitialPopulation(classes: seq<ClassRec>, numRooms: int, draws: seq<InitDraws>) returns (population: seq<seq<Placement>>)
    requires forall j :: 0 <= j < |draws| ==> InitDrawsFit(classes, numRooms, draws[j].first, draws[j].fill)
    ensures |population| == |draws|
    ensures forall j :: 0 <= j < |draws| ==> population[j] == InitialSchedule(classes, numRooms, draws[j].first, draws[j].fill)
    ensures forall j :: 0 <= j < |draws| ==> Fit(population[j], classes, numRooms)
  {
    population := [];
    for j := 0 to |draws|
      invariant |population| == j
      invariant forall i :: 0 <= i < j ==> population[i] == InitialSchedule(classes, numRooms, draws[i].first, draws[i].fill)
      invariant forall i :: 0 <= i < j ==> Fit(population[i], classes, numRooms)
    {
      var c := new Chromosome(classes, numRooms, draws[j].first, draws[j].fill);
      population := population + [c.schedule];
    }
  }

  /** How the generation loop ended: at the first generation that did not
      improve, after NUM_GENERATIONS generations, or in a retry loop of
      mutate that its draws never leave. */
  datatype Outcome = Converged | Exhausted | Stuck

  /** A ranking entry as the loop keeps it: a well-placed schedule of a
      population, scored by fitness. */
  predicate ScoredFit(z: Scored, classes: seq<ClassRec>, numRooms: int)
  {
    Fit(z.schedule, classes, numRooms) && Scoreable(z.schedule, numRooms) && z.fitness == Score(z.schedule, numRooms)
  }

  /** z is the best of a population: one of its schedules, scored no
      lower than any of them. */
  predicate BestOf(z: Scored, population: seq<seq<Placement>>, numRooms: int)
  {
    && z.schedule in population
    && forall j :: 0 <= j < |population| ==>
      Scoreable(population[j], numRooms) && Score(population[j], numRooms) <= z.fitness
  }

  /** Lines 233-234 of algorithm.py: score every chromosome and rank them;
      the top entry is the population's best, and its fitness is never
      positive. */
  method Rank(population: seq<seq<Placement>>, classes: seq<ClassRec>, numRooms: int) returns (ranked: seq<Scored>)
    requires SaneCatalog(classes) && |population| > 0
    requires forall j :: 0 <= j < |population| ==> Fit(population[j], classes, numRooms)
    ensures |ranked| == |population| && SortedDesc(ranked)
    ensures forall z :: z in ranked ==> ScoredFit(z, classes, numRooms) && z.schedule in population
    ensures forall j :: 0 <= j < |population| ==>
      Scoreable(population[j], numRooms) && Scored(population[j], Score(population[j], numRooms)) in ranked
    ensures ranked == Ranking(population, numRooms)
    ensures ScoredFit(ranked[0], classes, numRooms)
    ensures BestOf(ranked[0], population, numRooms)
    ensures ranked[0].fitness <= 0
  {
    forall j | 0 <= j < |population| ensures Scoreable(population[j], numRooms) {
      WellPlacedIsScoreable(population[j], classes, numRooms);
    }
    var fitnessScores := Evaluate(population, numRooms);
    ranked := SortByFitness(fitnessScores);
    SortedByFitness(fitnessScores);
    RankedMembers(population, fitnessScores, classes, numRooms);
    RankedBest(population, fitnessScores, numRooms);
    RankingMembers(population, numRooms);
    assert ranked[0] in ranked;
    ScoreNonPositive(ranked[0].schedule, numRooms);
  }

  /** Every entry of a ranking of scored members is a scored member. */
  lemma RankedMembers(population: seq<seq<Placement>>, fitnessScores: seq<Scored>, classes: seq<ClassRec>, numRooms: int)
    requires |fitnessScores| == |population|
    requires forall j :: 0 <= j < |population| ==> Fit(population[j], classes, numRooms) && Scoreable(population[j], numRooms)
    requires forall j :: 0 <= j < |population| ==>
      fitnessScores[j].schedule == population[j] && fitnessScores[j].fitness == Score(population[j], numRooms)
    ensures forall z :: z in SortByFitness(fitnessScores) ==> ScoredFit(z, classes, numRooms)
  {
    var ranked := SortByFitness(fitnessScores);
    forall z | z in ranked ensures ScoredFit(z, classes, numRooms) {
      assert z in multiset(ranked);
      var j :| 0 <= j < |fitnessScores| && fitnessScores[j] == z;
    }
  }

  /** The ranking holds the population's chromosomes, each scored by
      fitness, and every chromosome of the population is in it. */
  lemma RankingMembers(population: seq<seq<Placement>>, numRooms: int)
    requires forall j :: 0 <= j < |population| ==> Scoreable(population[j], numRooms)
    ensures forall z :: z in Ranking(population, numRooms) ==>
      z.schedule in population && Scoreable(z.schedule, numRooms) && z.fitness == Score(z.schedule, numRooms)
    ensures forall j :: 0 <= j < |population| ==> Scored(population[j], Score(population[j], numRooms)) in Ranking(population, numRooms)
  {
    var e := Evaluated(population, numRooms);
    SortKeepsMembers(e);
    forall z | z in Ranking(population, numRooms)
      ensures z.schedule in population && Scoreable(z.schedule, numRooms) && z.fitness == Score(z.schedule, numRooms)
    {
      var j :| 0 <= j < |e| && e[j] == z;
    }
    forall j | 0 <= j < |population| ensures Scored(population[j], Score(population[j], numRooms)) in Ranking(population, numRooms) {
      assert e[j] in e;
    }
  }

  /** The top of a ranking of scored members is the best of them. */
  lemma RankedBest(population: seq<seq<Placement>>, fitnessScores: seq<Scored>, numRooms: int)
    requires |fitnessScores| == |population| > 0
    requires forall j :: 0 <= j < |population| ==> Scoreable(population[j], numRooms)
    requires forall j :: 0 <= j < |population| ==>
      fitnessScores[j].schedule == population[j] && fitnessScores[j].fitness == Score(population[j], numRooms)
    ensures BestOf(SortByFitness(fitnessScores)[0], population, numRooms)
  {
    var ranked := SortByFitness(fitnessScores);
    RankedTop(fitnessScores);
    forall j | 0 <= j < |population| ensures Score(population[j], numRooms) <= ranked[0].fitness {
      assert fitnessScores[j] in fitnessScores;
    }
    var top :| 0 <= top < |fitnessScores| && fitnessScores[top] == ranked[0];
    assert ranked[0].schedule == population[top];
  }

  /** The parents of one generation (algorithm.py:242), one drawn pick
      per parent. */
  function Parents(ranked: seq<Scored>, generation: nat, pick: (nat, nat) -> nat): (r: seq<Scored>)
    requires |ranked| >= PopulationSize / 2
    requires forall g: nat, j: nat :: pick(g, j) < PopulationSize / 2
    ensures |r| == PopulationSize / 2
    ensures forall j :: 0 <= j < |r| ==> r[j] == ranked[pick(generation, j)]
    ensures forall j :: 0 <= j < |r| ==> r[j] in ranked[..PopulationSize / 2]
    ensures SortedDesc(ranked) ==>
      forall j, i :: 0 <= j < |r| && PopulationSize / 2 <= i < |ranked| ==> r[j].fitness >= ranked[i].fitness
  {
    PickParents(ranked, seq(PopulationSize / 2, j requires 0 <= j => pick(generation, j)))
  }

  /** The fifty children of one generation before mutation: the splices
      of its parents, in the order the crossover loop appends them. */
  function Children(ranked: seq<Scored>, generation: nat, pick: (nat, nat) -> nat, cut: (nat, nat, nat) -> nat): (r: seq<seq<Placement>>)
    requires |ranked| >= PopulationSize / 2
    requires forall g: nat, j: nat :: pick(g, j) < PopulationSize / 2
    ensures |r| == PopulationSize / 2
  {
    Bred(Parents(ranked, generation, pick), generation, cut)
  }

  /** Lines 242-255 of algorithm.py: fifty parents drawn from the top half
      of the ranking, fifty children bred from them, every child mutated
      with its draw. The run is stuck exactly when some child's draw does
      not fit it; otherwise child j of the next population is the mutated
      j-th splice, and all fifty are well placed. */
  method NextPopulation(ranked: seq<Scored>, classes: seq<ClassRec>, numRooms: int, generation: nat,
                        pick: (nat, nat) -> nat, cut: (nat, nat, nat) -> nat, roll: (nat, nat) -> real,
                        mutation: (nat, nat, seq<Placement>) -> MutateDraw)
    returns (population: seq<seq<Placement>>, stuck: bool)
    requires |ranked| >= PopulationSize / 2
    requires forall z :: z in ranked ==> Fit(z.schedule, classes, numRooms)
    requires forall g: nat, j: nat :: pick(g, j) < PopulationSize / 2
    requires forall g: nat, j: nat, n: nat :: n >= 2 ==> 1 <= cut(g, j, n) < n
    requires forall g: nat, j: nat :: 0.0 <= roll(g, j) < 1.0
    ensures stuck <==> AnyStuck(Children(ranked, generation, pick, cut), classes, numRooms, generation, mutation)
    ensures !stuck ==> AllMutated(population, Children(ranked, generation, pick, cut), classes, numRooms, generation, mutation)
    ensures !stuck ==> forall j :: 0 <= j < |population| ==> Fit(population[j], classes, numRooms)
  {
    var parents := Parents(ranked, generation, pick);
    forall j | 0 <= j < |parents| ensures Fit(parents[j].schedule, classes, numRooms) {
      assert parents[j] in ranked;
    }
    var offspring := Breed(parents, classes, numRooms, generation, cut);
    population, stuck := MutateAll(offspring, classes, numRooms, generation, roll, mutation);
    if !stuck {
      forall j | 0 <= j < |population| ensures Fit(population[j], classes, numRooms) {
        assert Fit(offspring[j], classes, numRooms);
      }
    }
  }

  /** A log of best fitnesses as the loop prints them: strictly
      increasing, and never positive. */
  predicate Improving(log: seq<int>)
  {
    (forall a, b :: 0 <= a < b < |log| ==> log[a] < log[b]) && forall a :: 0 <= a < |log| ==> log[a] <= 0
  }

  lemma ImprovingAppend(log: seq<int>, x: int)
    requires Improving(log) && x <= 0 && (|log| == 0 || log[|log| - 1] < x)
    ensures Improving(log + [x])
  {
    var r := log + [x];
    forall a, b | 0 <= a < b < |r| ensures r[a] < r[b] {
      if b < |log| { assert r[a] == log[a] && r[b] == log[b]; }
      else if a < |log| - 1 { assert r[a] == log[a] && log[a] < log[|log| - 1]; }
    }
  }

  /** A population the loop can rank and breed from: at least fifty
      well-placed, scoreable chromosomes. */
  predicate Breedable(population: seq<seq<Placement>>, classes: seq<ClassRec>, numRooms: int)
  {
    && |population| >= PopulationSize / 2
    && forall j :: 0 <= j < |population| ==> Fit(population[j], classes, numRooms) && Scoreable(population[j], numRooms)
  }

  /** The top of a breedable population's ranking is a well-placed,
      scored chromosome of it that no member outscores, and its fitness
      is never positive. */
  lemma RankingTop(population: seq<seq<Placement>>, classes: seq<ClassRec>, numRooms: int)
    requires Breedable(population, classes, numRooms)
    ensures ScoredFit(Ranking(population, numRooms)[0], classes, numRooms)
    ensures BestOf(Ranking(population, numRooms)[0], population, numRooms)
    ensures Ranking(population, numRooms)[0].fitness <= 0
  {
    var e := Evaluated(population, numRooms);
    RankedMembers(population, e, classes, numRooms);
    RankedBest(population, e, numRooms);
    var top := Ranking(population, numRooms)[0];
    assert top in Ranking(population, numRooms);
    ScoreNonPositive(top.schedule, numRooms);
  }

  /** The first n entries of a trace: each satisfies good, log[i] is
      top(xs[i]) wherever log has an entry, and each entry after the first
      is linked to the one before it. */
  predicate Trace<T>(xs: seq<T>, log: seq<int>, n: nat, good: T -> bool, top: T -> int, link: (nat, T, T) -> bool)
    requires n <= |xs|
    decreases n
  {
    n == 0 ||
    (&& Trace(xs, log, n - 1, good, top, link)
     && good(xs[n - 1])
     && (n - 1 < |log| ==> log[n - 1] == top(xs[n - 1]))
     && (n > 1 ==> link(n - 2, xs[n - 2], xs[n - 1])))
  }

  lemma {:induction false} TraceAt<T>(xs: seq<T>, log: seq<int>, n: nat, good: T -> bool, top: T -> int, link: (nat, T, T) -> bool, i: nat)
    requires n <= |xs| && Trace(xs, log, n, good, top, link) && i < n
    ensures good(xs[i])
    ensures i < |log| ==> log[i] == top(xs[i])
    ensures i + 1 < n ==> link(i, xs[i], xs[i + 1])
    decreases n
  {
    if i < n - 1 {
      TraceAt(xs, log, n - 1, good, top, link, i);
    }
  }

  /** Appending an entry leaves the first n entries as they were. */
  lemma {:induction false} TraceExtend<T>(xs: seq<T>, log: seq<int>, x: T, n: nat, good: T -> bool, top: T -> int, link: (nat, T, T) -> bool)
    requires n <= |xs| && Trace(xs, log, n, good, top, link)
    ensures Trace(xs + [x], log, n, good, top, link)
    decreases n
  {
    if n > 0 {
      TraceExtend(xs, log, x, n - 1, good, top, link);
      assert (xs + [x])[n - 1] == xs[n - 1];
      if n > 1 {
        assert (xs + [x])[n - 2] == xs[n - 2];
      }
    }
  }

  /** Appending a log entry for a later entry leaves the first n entries
      as they were. */
  lemma {:induction false} TraceLog<T>(xs: seq<T>, log: seq<int>, v: int, n: nat, good: T -> bool, top: T -> int, link: (nat, T, T) -> bool)
    requires n <= |xs| && n <= |log| && Trace(xs, log, n, good, top, link)
    ensures Trace(xs, log + [v], n, good, top, link)
    decreases n
  {
    if n > 0 {
      TraceLog(xs, log, v, n - 1, good, top, link);
      assert (log + [v])[n - 1] == log[n - 1];
    }
  }

  /** A population that can be ranked and bred from. */
  function IsBreedable(classes: seq<ClassRec>, numRooms: int): seq<seq<Placement>> -> bool
  {
    population => Breedable(population, classes, numRooms)
  }

  /** The fitness printed for a population: the top of its ranking. */
  function TopFitness(classes: seq<ClassRec>, numRooms: int): seq<seq<Placement>> -> int
  {
    population => if Breedable(population, classes, numRooms) then Ranking(population, numRooms)[0].fitness else 0
  }

  /** Generation g + 1 is generation g's children, each mutated with
      generation g's draws. */
  function BredFrom(classes: seq<ClassRec>, numRooms: int, pick: (nat, nat) -> nat, cut: (nat, nat, nat) -> nat,
                    mutation: (nat, nat, seq<Placement>) -> MutateDraw): (nat, seq<seq<Placement>>, seq<seq<Placement>>) -> bool
    requires forall g: nat, j: nat :: pick(g, j) < PopulationSize / 2
  {
    (g: nat, parent: seq<seq<Placement>>, next: seq<seq<Placement>>) =>
      Breedable(parent, classes, numRooms)
      && AllMutated(next, Children(Ranking(parent, numRooms), g, pick, cut), classes, numRooms, g, mutation)
  }

  lemma BredFromHolds(classes: seq<ClassRec>, numRooms: int, pick: (nat, nat) -> nat, cut: (nat, nat, nat) -> nat,
                      mutation: (nat, nat, seq<Placement>) -> MutateDraw, g: nat, parent: seq<seq<Placement>>, next: seq<seq<Placement>>)
    requires forall g: nat, j: nat :: pick(g, j) < PopulationSize / 2
    requires Breedable(parent, classes, numRooms)
    requires AllMutated(next, Children(Ranking(parent, numRooms), g, pick, cut), classes, numRooms, g, mutation)
    ensures BredFrom(classes, numRooms, pick, cut, mutation)(g, parent, next)
  {
  }

  /** pops, the populations ranked so far, and log, the best fitnesses
      printed so far, as the loop of algorithm.py:232-257 produces them:
      every ranked population is breedable, log[i] is the top fitness of
      generation i's ranking, and generation i + 1 is the children bred
      from generation i's ranking, each mutated with generation i's draws.
      log has an entry for every generation ranked, except the last one
      when it did not improve. RunAt states it index by index. */
  predicate Run(pops: seq<seq<seq<Placement>>>, log: seq<int>, classes: seq<ClassRec>, numRooms: int,
                pick: (nat, nat) -> nat, cut: (nat, nat, nat) -> nat, mutation: (nat, nat, seq<Placement>) -> MutateDraw)
    requires forall g: nat, j: nat :: pick(g, j) < PopulationSize / 2
  {
    && |log| <= |pops|
    && Trace(pops, log, |pops|, IsBreedable(classes, numRooms), TopFitness(classes, numRooms), BredFrom(classes, numRooms, pick, cut, mutation))
  }

  /** Run index by index. */
  lemma RunAt(pops: seq<seq<seq<Placement>>>, log: seq<int>, classes: seq<ClassRec>, numRooms: int,
              pick: (nat, nat) -> nat, cut: (nat, nat, nat) -> nat, mutation: (nat, nat, seq<Placement>) -> MutateDraw, i: nat)
    requires forall g: nat, j: nat :: pick(g, j) < PopulationSize / 2
    requires Run(pops, log, classes, numRooms, pick, cut, mutation) && i < |pops|
    ensures |log| <= |pops|
    ensures Breedable(pops[i], classes, numRooms)
    ensures i < |log| ==> log[i] == Ranking(pops[i], numRooms)[0].fitness
    ensures i + 1 < |pops| ==>
      AllMutated(pops[i + 1], Children(Ranking(pops[i], numRooms), i, pick, cut), classes, numRooms, i, mutation)
  {
    TraceAt(pops, log, |pops|, IsBreedable(classes, numRooms), TopFitness(classes, numRooms), BredFrom(classes, numRooms, pick, cut, mutation), i);
  }

  /** Ranking one more generation, bred from the last one ranked. */
  lemma RunRanked(pops: seq<seq<seq<Placement>>>, log: seq<int>, population: seq<seq<Placement>>, classes: seq<ClassRec>, numRooms: int,
                  pick: (nat, nat) -> nat, cut: (nat, nat, nat) -> nat, mutation: (nat, nat, seq<Placement>) -> MutateDraw)
    requires forall g: nat, j: nat :: pick(g, j) < PopulationSize / 2
    requires Run(pops, log, classes, numRooms, pick, cut, mutation) && |log| == |pops|
    requires Breedable(population, classes, numRooms)
    requires |pops| > 0 ==> BredFrom(classes, numRooms, pick, cut, mutation)(|pops| - 1, pops[|pops| - 1], population)
    ensures Run(pops + [population], log, classes, numRooms, pick, cut, mutation)
  {
    var good, top, link := IsBreedable(classes, numRooms), TopFitness(classes, numRooms), BredFrom(classes, numRooms, pick, cut, mutation);
    var ps := pops + [population];
    var n := |pops| + 1;
    assert |ps| == n;
    TraceExtend(pops, log, population, n - 1, good, top, link);
    assert ps[n - 1] == population && good(ps[n - 1]);
    if n > 1 {
      assert ps[n - 2] == pops[|pops| - 1];
      assert link(n - 2, ps[n - 2], ps[n - 1]);
    }
    assert Trace(ps, log, n, good, top, link);
  }

  /** Printing the top fitness of the generation ranked last. */
  lemma RunLogged(pops: seq<seq<seq<Placement>>>, log: seq<int>, classes: seq<ClassRec>, numRooms: int,
                  pick: (nat, nat) -> nat, cut: (nat, nat, nat) -> nat, mutation: (nat, nat, seq<Placement>) -> MutateDraw)
    requires forall g: nat, j: nat :: pick(g, j) < PopulationSize / 2
    requires Run(pops, log, classes, numRooms, pick, cut, mutation) && |pops| == |log| + 1
    ensures Breedable(pops[|log|], classes, numRooms)
    ensures Run(pops, log + [Ranking(pops[|log|], numRooms)[0].fitness], classes, numRooms, pick, cut, mutation)
  {
    var good, top, link := IsBreedable(classes, numRooms), TopFitness(classes, numRooms), BredFrom(classes, numRooms, pick, cut, mutation);
    assert good(pops[|log|]);
    var x := Ranking(pops[|log|], numRooms)[0].fitness;
    assert top(pops[|log|]) == x;
    TraceLog(pops, log, x, |log|, good, top, link);
    assert (log + [x])[|log|] == x;
  }

  /** The state of the loop at algorithm.py:232-257 before generation
      `generation`: the generations ranked so far are pops, each logged in
      log; bestSoFar is the last logged fitness; top is the top of the
      last ranking, of lastPopulation; population was bred from that
      ranking and mutated (or is the first population). */
  ghost predicate Searching(population: seq<seq<Placement>>, lastPopulation: seq<seq<Placement>>, top: Scored, bestSoFar: Option<int>,
                            log: seq<int>, pops: seq<seq<seq<Placement>>>, generation: nat, population0: seq<seq<Placement>>,
                            classes: seq<ClassRec>, numRooms: int,
                            pick: (nat, nat) -> nat, cut: (nat, nat, nat) -> nat, mutation: (nat, nat, seq<Placement>) -> MutateDraw)
    requires forall g: nat, j: nat :: pick(g, j) < PopulationSize / 2
  {
    && generation <= NumGenerations && |log| == generation && |pops| == generation
    && |population| >= PopulationSize / 2
    && (forall j :: 0 <= j < |population| ==> Fit(population[j], classes, numRooms))
    && Improving(log)
    && bestSoFar == (if generation == 0 then None else Some(log[generation - 1]))
    && Run(pops, log, classes, numRooms, pick, cut, mutation)
    && (generation == 0 ==> population == population0)
    && (generation > 0 ==>
          && top.fitness == log[generation - 1]
          && pops[0] == population0 && lastPopulation == pops[generation - 1]
          && Breedable(lastPopulation, classes, numRooms) && top == Ranking(lastPopulation, numRooms)[0]
          && BredFrom(classes, numRooms, pick, cut, mutation)(generation - 1, lastPopulation, population))
  }

  /** How the loop at algorithm.py:232-257 ends, from the first population
      population0: the generations ranked are pops, the last of them
      lastPopulation, and the top fitness printed for each generation that
      improved is in log, which strictly increases; top is the top of the
      last ranking. Exhausted: the budget of NUM_GENERATIONS ran out, and
      every generation was logged. Converged: the top of the last ranking
      did not beat the last one logged, and that generation is ranked but
      not logged. Stuck: a child of the last logged generation can never
      be placed by mutate, where the source would retry forever. */
  ghost predicate Finished(top: Scored, log: seq<int>, outcome: Outcome, lastPopulation: seq<seq<Placement>>,
                           pops: seq<seq<seq<Placement>>>, population0: seq<seq<Placement>>, classes: seq<ClassRec>, numRooms: int,
                           pick: (nat, nat) -> nat, cut: (nat, nat, nat) -> nat, mutation: (nat, nat, seq<Placement>) -> MutateDraw)
    requires forall g: nat, j: nat :: pick(g, j) < PopulationSize / 2
  {
    && 1 <= |log| <= NumGenerations && Improving(log)
    && 1 <= |pops| && pops[0] == population0 && lastPopulation == pops[|pops| - 1]
    && Run(pops, log, classes, numRooms, pick, cut, mutation)
    && Breedable(lastPopulation, classes, numRooms) && top == Ranking(lastPopulation, numRooms)[0]
    && (outcome == Exhausted ==> |log| == NumGenerations && top.fitness == log[|log| - 1])
    && (outcome == Converged ==> |pops| == |log| + 1 && top.fitness <= log[|log| - 1])
    && (outcome != Converged ==> |pops| == |log|)
    && (outcome == Stuck ==>
          AnyStuck(Children(Ranking(lastPopulation, numRooms), |log| - 1, pick, cut), classes, numRooms, |log| - 1, mutation))
  }

  /** Finished read back in terms of the trace: the generation that ended
      the loop is pops[|log|] when it converged and pops[|log| - 1]
      otherwise. */
  lemma FinishedTrace(top: Scored, log: seq<int>, outcome: Outcome, lastPopulation: seq<seq<Placement>>,
                      pops: seq<seq<seq<Placement>>>, population0: seq<seq<Placement>>, classes: seq<ClassRec>, numRooms: int,
                      pick: (nat, nat) -> nat, cut: (nat, nat, nat) -> nat, mutation: (nat, nat, seq<Placement>) -> MutateDraw)
    requires forall g: nat, j: nat :: pick(g, j) < PopulationSize / 2
    requires Finished(top, log, outcome, lastPopulation, pops, population0, classes, numRooms, pick, cut, mutation)
    ensures outcome == Converged ==>
      && |pops| == |log| + 1 && lastPopulation == pops[|log|] && Breedable(pops[|log|], classes, numRooms)
      && Ranking(pops[|log|], numRooms)[0].fitness <= log[|log| - 1]
    ensures outcome == Stuck ==>
      && |pops| == |log| && lastPopulation == pops[|log| - 1] && Breedable(pops[|log| - 1], classes, numRooms)
      && AnyStuck(Children(Ranking(pops[|log| - 1], numRooms), |log| - 1, pick, cut), classes, numRooms, |log| - 1, mutation)
  {
    if outcome == Converged {
      assert pops[|log|] == lastPopulation;
    } else {
      assert pops[|log| - 1] == lastPopulation;
    }
  }

  /** Running out of the NUM_GENERATIONS budget ends the loop Exhausted. */
  lemma SearchingExhausted(population: seq<seq<Placement>>, lastPopulation: seq<seq<Placement>>, top: Scored, bestSoFar: Option<int>,
                           log: seq<int>, pops: seq<seq<seq<Placement>>>, population0: seq<seq<Placement>>,
                           classes: seq<ClassRec>, numRooms: int,
                           pick: (nat, nat) -> nat, cut: (nat, nat, nat) -> nat, mutation: (nat, nat, seq<Placement>) -> MutateDraw)
    requires forall g: nat, j: nat :: pick(g, j) < PopulationSize / 2
    requires Searching(population, lastPopulation, top, bestSoFar, log, pops, NumGenerations, population0, classes, numRooms, pick, cut, mutation)
    ensures Finished(top, log, Exhausted, lastPopulation, pops, population0, classes, numRooms, pick, cut, mutation)
  {
  }

  /** One pass of the loop body at algorithm.py:233-255: rank the
      population, stop unless its top beats the best so far, else log the
      top, breed and mutate the next population. */
  method Generation(population: seq<seq<Placement>>, classes: seq<ClassRec>, numRooms: int, generation: nat, bestSoFar: Option<int>,
                    pick: (nat, nat) -> nat, cut: (nat, nat, nat) -> nat, roll: (nat, nat) -> real,
                    mutation: (nat, nat, seq<Placement>) -> MutateDraw, ghost lastPopulation: seq<seq<Placement>>, ghost prevTop: Scored,
                    ghost pops: seq<seq<seq<Placement>>>, ghost log: seq<int>, ghost population0: seq<seq<Placement>>)
    returns (top: Scored, improved: bool, next: seq<seq<Placement>>, stuck: bool)
    requires SaneCatalog(classes)
    requires forall g: nat, j: nat :: pick(g, j) < PopulationSize / 2
    requires forall g: nat, j: nat, n: nat :: n >= 2 ==> 1 <= cut(g, j, n) < n
    requires forall g: nat, j: nat :: 0.0 <= roll(g, j) < 1.0
    requires generation < NumGenerations
    requires Searching(population, lastPopulation, prevTop, bestSoFar, log, pops, generation, population0, classes, numRooms, pick, cut, mutation)
    ensures Breedable(population, classes, numRooms) && top == Ranking(population, numRooms)[0]
    ensures improved <==> bestSoFar.None? || bestSoFar.value < top.fitness
    ensures !improved ==> Finished(top, log, Converged, population, pops + [population], population0, classes, numRooms, pick, cut, mutation)
    ensures improved && stuck ==>
      Finished(top, log + [top.fitness], Stuck, population, pops + [population], population0, classes, numRooms, pick, cut, mutation)
    ensures improved && !stuck ==>
      Searching(next, population, top, Some(top.fitness), log + [top.fitness], pops + [population], generation + 1, population0,
                classes, numRooms, pick, cut, mutation)
  {
    var ranked := Rank(population, classes, numRooms);
    assert Breedable(population, classes, numRooms);
    RunRanked(pops, log, population, classes, numRooms, pick, cut, mutation);
    assert (pops + [population])[0] == population0 by {
      if generation > 0 { assert (pops + [population])[0] == pops[0]; }
    }
    assert (pops + [population])[generation] == population;
    top := ranked[0];
    improved := bestSoFar.None? || bestSoFar.value < top.fitness;
    next, stuck := [], false;
    if improved {
      ImprovingAppend(log, top.fitness);
      RunLogged(pops + [population], log, classes, numRooms, pick, cut, mutation);
      next, stuck := NextPopulation(ranked, classes, numRooms, generation, pick, cut, roll, mutation);
      assert (log + [top.fitness])[generation] == top.fitness;
      if !stuck {
        BredFromHolds(classes, numRooms, pick, cut, mutation, generation, population, next);
      }
    }
  }

  /** The loop of algorithm.py:232-257 from a given first population: it
      ends as Finished describes, with the generations ranked as the ghost
      trace pops. */
  method Search(classes: seq<ClassRec>, numRooms: int, population0: seq<seq<Placement>>,
                pick: (nat, nat) -> nat, cut: (nat, nat, nat) -> nat, roll: (nat, nat) -> real,
                mutation: (nat, nat, seq<Placement>) -> MutateDraw)
    returns (top: Scored, log: seq<int>, outcome: Outcome, lastPopulation: seq<seq<Placement>>, ghost pops: seq<seq<seq<Placement>>>)
    requires SaneCatalog(classes)
    requires |population0| == PopulationSize
    requires forall j :: 0 <= j < |population0| ==> Fit(population0[j], classes, numRooms)
    requires forall g: nat, j: nat :: pick(g, j) < PopulationSize / 2
    requires forall g: nat, j: nat, n: nat :: n >= 2 ==> 1 <= cut(g, j, n) < n
    requires forall g: nat, j: nat :: 0.0 <= roll(g, j) < 1.0
    ensures Finished(top, log, outcome, lastPopulation, pops, population0, classes, numRooms, pick, cut, mutation)
  {
    var population := population0;
    lastPopulation := population0;
    var bestSoFar: Option<int> := None;
    top := Scored([], 0);
    pops := [];
    log := [];
    var generation := 0;
    while generation < NumGenerations
      invariant Searching(population, lastPopulation, top, bestSoFar, log, pops, generation, population0, classes, numRooms, pick, cut, mutation)
    {
      var improved, next, stuck;
      top, improved, next, stuck := Generation(population, classes, numRooms, generation, bestSoFar, pick, cut, roll, mutation,
                                               lastPopulation, top, pops, log, population0);
      pops := pops + [population];
      lastPopulation := population;
      if !improved {
        outcome := Converged;
        return;
      }
      bestSoFar := Some(top.fitness);
      log := log + [top.fitness];
      if stuck {
        outcome := Stuck;
        return;
      }
      population := next;
      generation := generation + 1;
    }
    outcome := Exhausted;
    SearchingExhausted(population, lastPopulation, top, bestSoFar, log, pops, population0, classes, numRooms, pick, cut, mutation);
  }

  /** The generation loop (algorithm.py:232-260) from a given first population. log holds the best
      fitness of each generation that improved; it strictly increases and
      has at most NUM_GENERATIONS entries. The result is the top of the
      last ranking made: of the last logged generation when the budget
      runs out, and of the first generation that did not improve
      otherwise, whose best can lie below the last logged one. Either way
      it is the best schedule of lastPopulation, the population ranked
      last, and has at least POPULATION_SIZE entries. */
  method Generations(classes: seq<ClassRec>, numRooms: int, population0: seq<seq<Placement>>,
                pick: (nat, nat) -> nat, cut: (nat, nat, nat) -> nat, roll: (nat, nat) -> real,
                mutation: (nat, nat, seq<Placement>) -> MutateDraw)
    returns (best: seq<Placement>, bestFitness: int, log: seq<int>, outcome: Outcome, lastPopulation: seq<seq<Placement>>,
             ghost pops: seq<seq<seq<Placement>>>)
    requires SaneCatalog(classes)
    requires |population0| == PopulationSize
    requires forall j :: 0 <= j < |population0| ==> Fit(population0[j], classes, numRooms)
    requires forall g: nat, j: nat :: pick(g, j) < PopulationSize / 2
    requires forall g: nat, j: nat, n: nat :: n >= 2 ==> 1 <= cut(g, j, n) < n
    requires forall g: nat, j: nat :: 0.0 <= roll(g, j) < 1.0
    ensures |log| <= NumGenerations
    ensures Improving(log)
    ensures outcome != Stuck ==>
      && 1 <= |log|
      && AllWellPlaced(best, classes, numRooms)
      && Scoreable(best, numRooms) && bestFitness == Score(best, numRooms) && bestFitness <= 0
    ensures outcome == Exhausted ==> |log| == NumGenerations && bestFitness == log[|log| - 1]
    ensures outcome == Converged ==> bestFitness <= log[|log| - 1]
    ensures outcome != Stuck ==> |best| >= PopulationSize && BestOf(Scored(best, bestFitness), lastPopulation, numRooms)
    ensures 1 <= |pops| && pops[0] == population0 && lastPopulation == pops[|pops| - 1]
    ensures Run(pops, log, classes, numRooms, pick, cut, mutation)
    ensures outcome == Converged ==>
      && |pops| == |log| + 1 && 1 <= |log| && Breedable(pops[|log|], classes, numRooms)
      && Ranking(pops[|log|], numRooms)[0].fitness <= log[|log| - 1]
    ensures outcome != Converged ==> |pops| == |log|
    ensures outcome == Stuck ==>
      && 1 <= |log| && Breedable(pops[|log| - 1], classes, numRooms)
      && AnyStuck(Children(Ranking(pops[|log| - 1], numRooms), |log| - 1, pick, cut), classes, numRooms, |log| - 1, mutation)
    ensures outcome != Stuck ==>
      Breedable(lastPopulation, classes, numRooms) && Scored(best, bestFitness) == Ranking(lastPopulation, numRooms)[0]
  {
    var top;
    top, log, outcome, lastPopulation, pops := Search(classes, numRooms, population0, pick, cut, roll, mutation);
    best, bestFitness := top.schedule, top.fitness;
    RankingTop(lastPopulation, classes, numRooms);
    FinishedTrace(top, log, outcome, lastPopulation, pops, population0, classes, numRooms, pick, cut, mutation);
  }

  /** generate_timetable's search (algorithm.py:229-260): a first
      population of POPULATION_SIZE random chromosomes, then the generation
      loop, with the same guarantees. */
  method Evolve(classes: seq<ClassRec>, numRooms: int, init: seq<InitDraws>,
                pick: (nat, nat) -> nat, cut: (nat, nat, nat) -> nat, roll: (nat, nat) -> real,
                mutation: (nat, nat, seq<Placement>) -> MutateDraw)
    returns (best: seq<Placement>, bestFitness: int, log: seq<int>, outcome: Outcome, lastPopulation: seq<seq<Placement>>,
             ghost pops: seq<seq<seq<Placement>>>)
    requires SaneCatalog(classes)
    requires |init| == PopulationSize
    requires forall j :: 0 <= j < |init| ==> InitDrawsFit(classes, numRooms, init[j].first, init[j].fill)
    requires forall g: nat, j: nat :: pick(g, j) < PopulationSize / 2
    requires forall g: nat, j: nat, n: nat :: n >= 2 ==> 1 <= cut(g, j, n) < n
    requires forall g: nat, j: nat :: 0.0 <= roll(g, j) < 1.0
    ensures |log| <= NumGenerations
    ensures Improving(log)
    ensures outcome != Stuck ==>
      && 1 <= |log|
      && AllWellPlaced(best, classes, numRooms)
      && Scoreable(best, numRooms) && bestFitness == Score(best, numRooms) && bestFitness <= 0
    ensures outcome == Exhausted ==> |log| == NumGenerations && bestFitness == log[|log| - 1]
    ensures outcome == Converged ==> bestFitness <= log[|log| - 1]
    ensures outcome != Stuck ==> |best| >= PopulationSize && BestOf(Scored(best, bestFitness), lastPopulation, numRooms)
    ensures 1 <= |pops| && |pops[0]| == |init| && lastPopulation == pops[|pops| - 1]
    ensures forall j :: 0 <= j < |init| ==> pops[0][j] == InitialSchedule(classes, numRooms, init[j].first, init[j].fill)
    ensures Run(pops, log, classes, numRooms, pick, cut, mutation)
    ensures outcome == Converged ==>
      && |pops| == |log| + 1 && 1 <= |log| && Breedable(pops[|log|], classes, numRooms)
      && Ranking(pops[|log|], numRooms)[0].fitness <= log[|log| - 1]
    ensures outcome != Converged ==> |pops| == |log|
    ensures outcome == Stuck ==>
      && 1 <= |log| && Breedable(pops[|log| - 1], classes, numRooms)
      && AnyStuck(Children(Ranking(pops[|log| - 1], numRooms), |log| - 1, pick, cut), classes, numRooms, |log| - 1, mutation)
    ensures outcome != Stuck ==>
      Breedable(lastPopulation, classes, numRooms) && Scored(best, bestFitness) == Ranking(lastPopulation, numRooms)[0]
  {
    var population := InitialPopulation(classes, numRooms, init);
    best, bestFitness, log, outcome, lastPopulation, pops := Generations(classes, numRooms, population, pick, cut, roll, mutation);
  }
}
