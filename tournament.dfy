/** select_parents of the dict-grid engine (timetable.py:122-132): two
    tournaments, each over min(5, len(population)) distinct members drawn
    by random.sample, won by the first member of highest fitness. */
module Tournament {
  import opened DictGrid

  /** np.argmax: the position of the first largest element. */
  function ArgMax(xs: seq<real>): (r: nat)
    requires |xs| > 0
    ensures r < |xs|
    ensures forall j :: 0 <= j < |xs| ==> xs[j] <= xs[r]
    ensures forall j :: 0 <= j < r ==> xs[j] < xs[r]
  {
    if |xs| == 1 then 0
    else
      var m := ArgMax(xs[..|xs| - 1]);
      assert forall j :: 0 <= j < |xs| - 1 ==> xs[..|xs| - 1][j] == xs[j];
      if xs[|xs| - 1] > xs[m] then |xs| - 1 else m
  }

  /** min(5, len(population)): never more than five, never more than the
      population, and one of the two. */
  function TournamentSize(populationSize: nat): (r: nat)
    ensures r <= 5 && r <= populationSize
    ensures r == 5 || r == populationSize
  {
    if populationSize < 5 then populationSize else 5
  }

  /** tournament_indices[np.argmax(tournament_fitness)]. */
  function Winner(sample: seq<nat>, fitnessScores: seq<real>): (w: nat)
    requires |sample| > 0 && forall i :: 0 <= i < |sample| ==> sample[i] < |fitnessScores|
    ensures w in sample && w < |fitnessScores|
  {
    var tournamentFitness := seq(|sample|, i requires 0 <= i < |sample| => fitnessScores[sample[i]]);
    sample[ArgMax(tournamentFitness)]
  }

  /** The winner is a sampled index whose fitness no sampled index exceeds,
      and every index sampled before it is strictly less fit: ties go to
      the one drawn first. */
  lemma WinnerIsFirstFittest(sample: seq<nat>, fitnessScores: seq<real>)
    requires |sample| > 0 && forall i :: 0 <= i < |sample| ==> sample[i] < |fitnessScores|
    ensures var w := Winner(sample, fitnessScores);
      && w < |fitnessScores|
      && (forall i :: 0 <= i < |sample| ==> fitnessScores[sample[i]] <= fitnessScores[w])
      && exists p :: 0 <= p < |sample| && sample[p] == w
           && forall q :: 0 <= q < p ==> fitnessScores[sample[q]] < fitnessScores[w]
  {
    var tournamentFitness := seq(|sample|, i requires 0 <= i < |sample| => fitnessScores[sample[i]]);
    var p := ArgMax(tournamentFitness);
    assert sample[p] == Winner(sample, fitnessScores);
    assert forall i :: 0 <= i < |sample| ==> tournamentFitness[i] == fitnessScores[sample[i]];
  }

  /** select_parents with the two random.sample draws as parameters: two
      parents, each the population member at the winner of its
      tournament. */
  method SelectParents(population: seq<Timetable>, fitnessScores: seq<real>, samples: seq<seq<nat>>)
    returns (parents: seq<Timetable>)
    requires |population| > 0 && |samples| == 2
    // each draw is what random.sample(range(len(population)), tournament_size) returns
    requires forall r :: 0 <= r < 2 ==> 0 < |samples[r]| == TournamentSize(|population|)
    requires forall r, i :: 0 <= r < 2 && 0 <= i < |samples[r]| ==> samples[r][i] < |population|
    requires forall r, i, j :: 0 <= r < 2 && 0 <= i < j < |samples[r]| ==> samples[r][i] != samples[r][j]
    requires forall r, i :: 0 <= r < 2 && 0 <= i < |samples[r]| ==> samples[r][i] < |fitnessScores|
    ensures |parents| == 2
    ensures forall r :: 0 <= r < 2 ==>
      Winner(samples[r], fitnessScores) < |population| && parents[r] == population[Winner(samples[r], fitnessScores)]
    ensures forall r :: 0 <= r < 2 ==> parents[r] in population
  {
    var tournamentSize := TournamentSize(|population|);
    parents := [];
    for round := 0 to 2
      invariant |parents| == round
      invariant forall r :: 0 <= r < round ==>
        Winner(samples[r], fitnessScores) < |population| && parents[r] == population[Winner(samples[r], fitnessScores)]
    {
      var tournamentIndices := samples[round];
      var tournamentFitness := seq(tournamentSize, i requires 0 <= i < tournamentSize => fitnessScores[tournamentIndices[i]]);
      var winnerIndex := tournamentIndices[ArgMax(tournamentFitness)];
      assert winnerIndex == Winner(samples[round], fitnessScores);
      parents := parents + [population[winnerIndex]];
    }
  }
}
