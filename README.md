# Timetable genetic algorithms in Dafny

This project models the two timetable generators of the repository and
proves properties of them. Every random draw is a parameter, which makes
both engines deterministic.

**The list-of-placements engine (`algorithm.py`).**
- A chromosome holds a schedule: a list of `(class, room, timeslot, day)`
  placements. The `(None, None, None, None)` sentinel is the `Empty`
  constructor.
- The chromosome is a class with a mutable `schedule` field. Its
  constructor is the random initialisation. `Mutate` is the two-branch
  mutation. `FindValidTimeslot` is the timeslot search.
- `fitness` runs one scan over the schedule. The scan books slots in
  per-room-and-day and per-instructor-and-day boolean vectors that grow on
  demand, and subtracts six penalties.
- Modules:
  - `Occupancy`: the vectors and the booking loops.
  - `Fitness`: the scan, as a specification function `Scan`, and the
    loops that compute it (`ScanSchedule`, `ComputeFitness`).
  - `Evolution`: the generation loop. It sorts by fitness, stops at the
    first generation that does not improve, draws fifty parents from the
    top half, splices fifty children and mutates each one.
  - `Grid`: the label grid of `generate_timetable`.

**The dict-grid engine (`timetable.py`).**
- A timetable is a map from `(day, time_slot)` to a cell. A cell is
  `None`, a course row (as `generate_random_timetable` stores it) or a
  course id (as `mutate` stores it).
- Modules:
  - `DictGrid`: generation and mutation.
  - `Conflicts`: the conflict count of `fitness_function`, over the
    dictionary's iteration order passed as a parameter.
  - `DictCrossover`: sorted-item crossover.
  - `Tournament`: tournament `select_parents`.

The course list that the database would return is a parameter.

**Random draws.** Each draw is an explicit argument:
- `random.randint` and `random.choice`;
- `random.sample`;
- the crossover points;
- `random.random()`;
- the day a retry loop (`while any(...): day = random.choice(...)`) ends on;
- the slots `find_valid_timeslot` draws, as a finite tape.

The draws of the initialisation, of `random.sample`, of the crossover
points and of `random.random()` have preconditions stating their ranges.
The mutation draws, the timeslot tape and the `random()` roll of each
cell in DictGrid.Mutate have none. A roll there is any real, and the cell
is mutated exactly when it lies below the mutation rate. Any value is accepted
there, and a value the source could not have drawn is an explicit outcome:
the tape returns None when it runs out, and a child is `Stuck` exactly
when its mutation draw does not fit (`DrawFitsFor` is false). That covers
a retry day that still repeats the Course and ClassType, and a pick, room,
slot or day outside its range.

The generation loop takes the draws as functions of the generation number
and the position.
It also returns, as a ghost value, the trace `pops` of the populations
it ranked, one per generation. The predicate `Run` ties that trace to the
logged fitnesses and to the draws: each generation is the mutated
children of the ranking before it.

## Model

| member | source | states |
|---|---|---|
| Records.WellPlacedIsScoreable | algorithm.py:42-53 | entries drawn from the initialisation ranges, for classes of 1 to 7 weekly hours, meet what the fitness scan needs: no sentinel, a room in 1..num_rooms and a timeslot below 7 |
| Occupancy.Falses | algorithm.py:122 | `[False] * n` has max(n, 0) cells and none is marked |
| Occupancy.MarkSlot | algorithm.py:144-148 | one pass of the booking loop grows the vector to at least t + 1 cells |
| Occupancy.MarkRangeFacts | algorithm.py:143-148 | after booking [lo, hi) the vector has max(len, hi) cells; exactly the old marks and [lo, hi) are marked |
| Occupancy.CountMarkedBound | algorithm.py:146-147 | the penalty of a booking is at most the number of slots, and 0 exactly when none was already marked |
| Occupancy.OccupyRule | algorithm.py:140-159 | start slot taken: penalty exactly 1 and the vector unchanged; otherwise [t, min(t+hours, 7)) is booked, one point per slot already marked |
| Occupancy.OccupyKeeps | algorithm.py:140-159 | a room or instructor check never clears a mark or shrinks a vector |
| Occupancy.LabRule | algorithm.py:162-172 | a lab costs 2 when hours > 3 or t + hours > 7, plus 1 per block slot marked in either vector; both vectors reach t + hours with the block marked; other slots are unchanged |
| Occupancy.MarkSlots | algorithm.py:143-148 | the booking loop computes MarkRange and CountMarked |
| Occupancy.OccupySlots | algorithm.py:140-148 | the room/instructor check computes Occupy |
| Occupancy.MarkLab | algorithm.py:165-172 | the lab loop computes LabBlock over both vectors |
| Occupancy.Occupy | algorithm.py:140-159 | constraint 1 or 2 on one vector: 1 if the start slot is taken, otherwise book [t, min(t + hours, 7)) at one point per slot already marked; OccupyRule and OccupyKeeps state its properties |
| Occupancy.LabBlock | algorithm.py:162-172 | constraint 3 on both vectors: 2 for a breach of the lab policy, then one point per block slot marked in either vector; LabRule states its properties |
| Fitness.SameDayRepeat | algorithm.py:180-182 | the constraint 5 test: another entry with the same Course and ClassType lies on this entry's day, where a tuple equal to this entry does not count as another |
| Fitness.SameDayRepeatPaired | algorithm.py:180-182 | a repeated day is never charged alone: the other entry it finds is itself a charged entry |
| Fitness.SameDayRepeatIgnoresCopies | algorithm.py:181 | adding a copy of an entry never changes whether that entry is charged, because `c != (...)` skips equal tuples |
| Fitness.Scan | algorithm.py:117-182 | the three dictionaries and the running score after n entries; ScanCovers, ScanNonIncreasing, MarksPersist, CourseHoursAreSums and HoursCharge state its properties |
| Fitness.Score | algorithm.py:116-191 | the scan's score plus the balance penalty; ScoreNonPositive and ComputeFitness state its properties |
| Fitness.Step | algorithm.py:134-182 | one iteration of the scan loop on one entry: the new dictionaries, score and the entry's five charges; OccupyRule, LabRule, HoursCharge, StepCovers, StepKeepsMarks, ScanStepLowers and LabChargedForOwnStart state its properties |
| Fitness.LabChargedForOwnStart | algorithm.py:140-172 | a Lab starting inside the week is charged at least 1 by constraint 3 for the start slot that constraints 1 and 2 have just booked, so its score strictly drops |
| Fitness.KeysOf | algorithm.py:120-131 | every entry's (room, day), (instructor, day) and (Course, ClassType) key is initialised |
| Fitness.InitialCovers | algorithm.py:120-131 | the initial dictionaries cover every entry with seven-cell vectors |
| Fitness.StepCovers | algorithm.py:140-176 | scanning an entry keeps every entry covered |
| Fitness.ScanCovers | algorithm.py:134-182 | at every point of the scan no lookup fails |
| Fitness.DayCounts | algorithm.py:185 | one count per weekday |
| Fitness.SeqMaxMin | algorithm.py:186-187 | max and min are elements of the list, bounding it from above and below |
| Fitness.BalanceCharge | algorithm.py:184-189 | the balance penalty is 1 exactly when two weekday counts differ by more than 1 |
| Fitness.ScoreEntry | algorithm.py:134-182 | the loop body updates the three dictionaries and the score as Step says |
| Fitness.ScanSchedule | algorithm.py:117-182 | the scan loop ends in the state Scan describes |
| Fitness.ComputeFitness | algorithm.py:116-191 | `fitness` returns Score, which is never positive |
| Fitness.ScanStepLowers | algorithm.py:134-182 | scanning one more entry never raises the running score, since every charge is subtracted |
| Fitness.ScanNonIncreasing | algorithm.py:117-182 | the running score never rises: after m entries it is at most its value after any n <= m entries, and so at most the initial 0 |
| Fitness.ScoreNonPositive | algorithm.py:116-191 | the fitness is at most 0 |
| Fitness.StepKeepsMarks | algorithm.py:140-172 | scanning one entry clears no mark in any room or instructor vector |
| Fitness.ScanKeepsMarks | algorithm.py:134-172 | the same for one step of Scan |
| Fitness.MarksPersist | algorithm.py:134-182 | a slot booked after n entries stays booked for the rest of the scan |
| Fitness.CourseHoursAreSums | algorithm.py:126-131 | course_hours of a key after n entries is the sum of WeeklyHours of those entries with that key |
| Fitness.HoursCharge | algorithm.py:174-178 | an entry costs 1 exactly when the cumulative hours of its key, itself included, exceed twice its WeeklyHours |
| Chromosomes.Unused | algorithm.py:59 | exactly the classes of the catalogue that no entry carries |
| Chromosomes.InitialSchedule | algorithm.py:35-54 | max(len(classes), 100) entries; the first ones are the classes in order; every entry is well placed |
| Chromosomes.Chromosome.constructor | algorithm.py:35-54 | the two append loops build InitialSchedule |
| Chromosomes.Appended | algorithm.py:61-72 | the appended entry is a class not scheduled before, well placed, on a day without an entry of its Course and ClassType |
| Chromosomes.CountSame | algorithm.py:81 | the count of equal entries is at most the length, and at least 1 for an entry of the schedule |
| Chromosomes.Range | algorithm.py:88 | `range(lo, hi)` lists lo .. hi - 1 |
| Chromosomes.AvailableSlots | algorithm.py:86-90 | for an entry with hours left nothing is available; with none left the whole range is available |
| Chromosomes.AllVacantFrom | algorithm.py:88 | Python's short-circuit `all(...)`: True when every index of the block holds the sentinel; False naming an index that holds an entry, and False as soon as the first index read does; None (an IndexError) only when the block runs past the end of the schedule |
| Chromosomes.Mutated | algorithm.py:57-104 | mutate with fitting draws adds one entry exactly when some class is unused, keeps every earlier entry, and keeps a well-placed schedule well placed |
| Chromosomes.Chromosome.WithSchedule | algorithm.py:247-250 | a chromosome holding a given child schedule |
| Chromosomes.Chromosome.Mutate | algorithm.py:57-104 | the append branch adds the Appended entry; the rewrite branch leaves the schedule as it was |
| Chromosomes.Chromosome.WriteBlock | algorithm.py:98-99 | entries idx .. idx + hours - 1 get consecutive timeslots; all others are unchanged |
| Chromosomes.Chromosome.ClearOverlaps | algorithm.py:101-104 | every other entry in the block's slots on that day becomes the sentinel; all others are unchanged |
| Chromosomes.Chromosome.FindValidTimeslot | algorithm.py:107-112 | the search returns FirstFreeDraw of its draws |
| Chromosomes.FirstFreeDrawMeaning | algorithm.py:107-112 | the result is a drawn slot the room does not use, after which no draw is tried; None exactly when the room uses every draw |
| Chromosomes.RemainingBelowWeekly | algorithm.py:81 | remaining_hours is at most WeeklyHours - 1, because the picked entry counts itself |
| Evolution.Splice | algorithm.py:246-250 | for equal-length parents the child agrees with the first parent before the cut and the second after it; a parent spliced with itself is unchanged |
| Evolution.SpliceKeeps | algorithm.py:246-250 | both children of well-placed parents are well placed and no shorter than the shorter parent |
| Evolution.Insert | algorithm.py:234 | insertion adds exactly one element |
| Evolution.InsertSorted | algorithm.py:234 | insertion keeps a ranking in non-increasing order |
| Evolution.SortByFitness | algorithm.py:234 | the sort is a permutation |
| Evolution.SortedByFitness | algorithm.py:234 | the sort gives non-increasing fitness |
| Evolution.InsertWithFitness | algorithm.py:234 | inserting an entry keeps the order of the entries of any one fitness, placing the new one first among its equals |
| Evolution.SortKeepsMembers | algorithm.py:234 | the sort neither adds nor drops an entry |
| Evolution.SortIsStable | algorithm.py:234 | entries of equal fitness keep their population order, as Python's stable sort does |
| Evolution.RankedTop | algorithm.py:234-238 | the first ranked entry is in the population and no entry is fitter |
| Evolution.Evaluated | algorithm.py:233 | the evaluated list has one entry per chromosome; Evaluate states what each entry is |
| Evolution.Evaluate | algorithm.py:233 | each chromosome is paired with its Score, in population order; the loop builds exactly Evaluated |
| Evolution.Ranking | algorithm.py:233-234 | the ranking has one entry per chromosome; RankingMembers and RankingTop state what it holds |
| Evolution.RankingMembers | algorithm.py:233-234 | every ranking entry is a chromosome of the population paired with its Score, and every chromosome of the population appears in the ranking so paired |
| Evolution.RankingTop | algorithm.py:233-238 | the top of a breedable population's ranking is a well-placed chromosome of it with its Score, no member scores higher, and it is never positive |
| Evolution.Parents | algorithm.py:242 | the fifty parents of one generation, one per drawn pick; PickParents states their properties, which Parents passes on: all from the top half and, in a sorted ranking, each at least as fit as anything outside it |
| Evolution.Bred | algorithm.py:245-251 | 2·⌊n/2⌋ children, the k-th being the splice of pair ⌊k/2⌋ taken in the order k % 2 gives |
| Evolution.Children | algorithm.py:242-251 | the fifty children the breeding of one generation produces from its drawn parents |
| Evolution.PickParents | algorithm.py:242 | fifty parents, all from the top half; in a sorted ranking, each at least as fit as anything outside it |
| Evolution.Breed | algorithm.py:245-251 | the loop builds exactly Bred: 2·⌊n/2⌋ children, pair j giving the two splices of parents 2j and 2j+1; all well placed |
| Evolution.MutateChild | algorithm.py:254-255 | since random() < 1.5 always holds, the child is mutated, or stuck exactly when its draw does not fit (`DrawFitsFor` is false: a retry day that still repeats the Course and ClassType, or a pick, room, slot or day out of range) |
| Evolution.MutateAll | algorithm.py:253-255 | stuck exactly when some draw does not fit; otherwise every child is replaced by its Mutated schedule |
| Evolution.InitialPopulation | algorithm.py:229 | one initial schedule per set of draws, all well placed |
| Evolution.RankedMembers | algorithm.py:233-234 | every ranked entry is a well-placed schedule paired with its Score |
| Evolution.RankedBest | algorithm.py:233-238 | the top of the ranking is a schedule of the population whose Score no member exceeds |
| Evolution.Rank | algorithm.py:233-234 | a sorted ranking with one entry per chromosome; each entry is a well-placed chromosome of the population paired with its Score, and each chromosome appears so paired; it is Ranking(population); its top is a schedule of the population whose Score no member exceeds, and it is never positive |
| Evolution.NextPopulation | algorithm.py:242-257 | stuck exactly when the mutation draw of some child of Children does not fit; otherwise the next population is Children with each child replaced by its Mutated schedule, fifty members, all well placed |
| Evolution.ImprovingAppend | algorithm.py:236-240 | appending a strictly better non-positive best keeps the log strictly increasing |
| Evolution.RunAt | algorithm.py:232-257 | in a run, every ranked generation is breedable, log[i] is the top fitness of generation i's ranking, and generation i + 1 is Children of generation i's ranking with each child mutated by its draw |
| Evolution.RunRanked | algorithm.py:232-234 | ranking one more generation, bred and mutated from the last one ranked, extends the run |
| Evolution.RunLogged | algorithm.py:236-237 | logging the top fitness of the generation ranked last extends the run |
| Evolution.FinishedTrace | algorithm.py:236-240 | a converged run ends on the generation after the last logged one, ranked and no better than the last logged fitness; a stuck run ends on the last logged generation, a child of whose ranking draws a mutation that can never fit |
| Evolution.SearchingExhausted | algorithm.py:232 | running through all NUM_GENERATIONS generations ends the loop Exhausted, every generation logged |
| Evolution.Generation | algorithm.py:233-255 | one loop pass: the population is breedable and top is the top of its Ranking; it improves exactly when top beats the best so far; not improving ends the loop Converged, a stuck mutation ends it Stuck with top logged, and otherwise the loop state moves on one generation with top logged and the next population bred from this one's ranking |
| Evolution.Search | algorithm.py:232-257 | the loop ends as Finished says: the ranked generations are a run pops starting at the first population and ending at lastPopulation, with log strictly increasing and at most NUM_GENERATIONS long, top the top of lastPopulation's ranking, and the outcome's own facts |
| Evolution.Generations | algorithm.py:230-258 | at most 500 generations; the best fitness strictly increases; the ranked generations form a run pops from the first population to lastPopulation, each bred and mutated from the one before, log[i] the top fitness of generation i; unless stuck, the result is the top of lastPopulation's Ranking, a well-placed schedule of at least 100 entries whose Score is the reported fitness and that no member of lastPopulation outscores; exhausted runs end on the last logged value; a converged run's last generation is ranked but not logged and no better than the last logged value; a stuck run stops at a child of the last logged generation whose draw never fits |
| Evolution.Evolve | algorithm.py:229-258 | the whole run from the initial population: pops[0] is the InitialSchedule of each set of draws, with the guarantees of Generations |
| Grid.Label | algorithm.py:203 | a cell label is "Course (ClassType)" and never empty |
| Grid.CellAfterMeaning | algorithm.py:200-204 | a cell is empty exactly when no entry lies on it; otherwise it shows the label of an entry on it after which none does (the last writer wins) |
| Grid.FillGrid | algorithm.py:200-204 | a seven-cell row for every weekday, each cell as CellAfter describes |
| DictGrid.AssignedMeaning | timetable.py:56-60 | a cell is None exactly when no course was drawn on it; otherwise it holds the last course drawn on it |
| DictGrid.GenerateRandomTimetable | timetable.py:45-62 | the keys are exactly {1..num_days}×{1..num_time_slots}; each cell is as AssignedMeaning says |
| DictGrid.Mutate | timetable.py:108-120 | chosen grid cells hold the id of the picked course; other keys are unchanged; no other key is added; the input is a value and stays intact; when every draw is at or above the rate the result is the input |
| Conflicts.FindCourse | timetable.py:76-77 | `next(...)` finds a course exactly when the cell is an id that some course has; a course row never matches |
| Conflicts.ConflictingMeaning | timetable.py:74-82 | a counted pair is two id cells on one day, in different slots, holding one known course id |
| Conflicts.RowPairsMembers | timetable.py:74-82 | the pairs of one row are exactly its conflicting pairs with the items passed so far |
| Conflicts.RowPairsStep | timetable.py:74-82 | one more pair examined by the inner loop adds one pair exactly when it conflicts, since the items are distinct |
| Conflicts.PairsBeforeMembers | timetable.py:72-83 | the pairs of the first i rows are exactly the conflicting pairs whose first cell is among the first i items |
| Conflicts.RowsDisjoint | timetable.py:72-83 | a finished row shares no pair with the rows before it, so their sizes add up |
| Conflicts.PairsBeforeAll | timetable.py:72-83 | once every item has been the outer one, the pairs counted are all the conflicting pairs |
| Conflicts.CountRow | timetable.py:74-82 | the inner loop adds the number of the row's conflicting pairs to the count |
| Conflicts.CountConflicts | timetable.py:72-83 | the double loop counts exactly the conflicting ordered pairs, in any iteration order |
| Conflicts.ConflictsSymmetric | timetable.py:74-82 | a conflict read backwards is a conflict, and never pairs a cell with itself |
| Conflicts.ConflictCountEven | timetable.py:72-83 | the conflict count is even |
| Conflicts.FitnessScore | timetable.py:86 | 1/(1+conflicts) lies in (0, 1] and is 1 exactly when there is no conflict |
| Conflicts.FitnessScoreDecreasing | timetable.py:86 | more conflicts give a strictly lower score |
| Conflicts.FitnessFunction | timetable.py:65-87 | returns FitnessScore of the number of conflicting pairs; 1 exactly when there are none |
| DictCrossover.SortedKeysFacts | timetable.py:93-94 | the sorted keys are as many as the keys, each a key, in strictly increasing order |
| DictCrossover.SortedKeysComplete | timetable.py:93-94 | every key appears in the sorted list |
| DictCrossover.SortedItems | timetable.py:93-94 | `sorted(t.items())` pairs each sorted key with its cell |
| DictCrossover.DictOfDistinct | timetable.py:102-103 | `dict()` of a list with distinct keys has exactly those keys, each with its own value |
| DictCrossover.SpliceItems | timetable.py:98-103 | a spliced list over one key order maps each key to the first list's value before the point and the second's after it |
| DictCrossover.ItemsOverKeys | timetable.py:93-94 | parents with one key set list the same keys in the same order |
| DictCrossover.DictOfKeys | timetable.py:102-103 | `dict()` of a list has no key that the list does not carry |
| DictCrossover.Crossover | timetable.py:91-105 | the two children of the sorted-item splice; CrossoverSameKeys, CrossoverKeepsCells, CrossoverKeysFromParents and CrossoverSelf state its properties |
| DictCrossover.CrossoverKeysFromParents | timetable.py:91-105 | for any two parents, every key of either child is a key of a parent |
| DictCrossover.CrossoverSameKeys | timetable.py:91-105 | over one key set, child1 takes t1's cell at the i-th sorted key for i below the point and t2's after it; child2 the mirror; no key is added |
| DictCrossover.CrossoverKeepsCells | timetable.py:97-103 | over one key set, both children have exactly that key set; at each key one child holds t1's cell and the other t2's |
| DictCrossover.CrossoverSelf | timetable.py:97-103 | a timetable crossed with itself gives itself back twice |
| Tournament.ArgMax | timetable.py:130 | `np.argmax` returns a position of a largest element, with every earlier element strictly smaller |
| Tournament.TournamentSize | timetable.py:125 | min(5, n): at most 5 and at most n, and equal to one of them |
| Tournament.Winner | timetable.py:128-130 | the winner is one of the sampled indices and a position of the fitness list |
| Tournament.WinnerIsFirstFittest | timetable.py:128-130 | the winner is a sampled index whose fitness no sampled index exceeds; ties go to the one drawn first |
| Tournament.SelectParents | timetable.py:122-132 | two parents, each the population member at its tournament's winner |

## Left out

**Outside the core.**
- File and database I/O is not modelled: `read_data`, the CSV files, the
  sqlite/psycopg2 connection and the `database.*` queries. Classes and
  courses are parameters.
- Output is not modelled: the prints, PrettyTable rendering,
  `display_timetable` and `gen_timetable` (DB reads and display each
  generation).
- The per-semester driver around the run is not modelled: the loop over
  semesters and the CSV reads at algorithm.py:219-228, the print at 258,
  and the collection and printing of the tables at 262-268. The run it
  drives (229-257), the pick of the best schedule (260) and the grid fill
  (261) are modelled.
- gui.py is not part of this model.

**Random draws.** The distributions of `random.*` and `np.argmax` are not
modelled. Only the chosen values are, as parameters.

**Retry loops.**
- Evolution.Generations: termination of the `while any(...)` retry loops
  in `mutate` is not modelled, because these loops can spin forever. A run
  stops with the outcome `Stuck` exactly when some child's mutation draw
  does not fit (`DrawFitsFor` is false). That covers a retry day that
  still repeats the Course and ClassType, and a pick, room, slot or day
  outside its range.
- Evolution.Generations: the fitness of the stuck generation is still in
  `log`, though the source would never get to print it.
- Chromosomes.Chromosome.FindValidTimeslot: it draws from a finite tape
  and returns None when the tape is used up. The source loops forever on
  a room that uses all seven slots.

**Behaviour that differs from what the code might seem to do.**
- Chromosomes.Chromosome.Mutate: the rewrite branch never changes the
  schedule.
  - The `all(...)` at algorithm.py:88 does not depend on the candidate slot.
  - Its first term reads the picked entry's own room, which is never None.
  - So no slot is available while hours remain, and with none remaining
    the write loops are empty.
  - Its write and clear loops are modelled (WriteBlock, ClearOverlaps),
    but no call reaches them with a non-empty block.
- Chromosomes.Chromosome.Mutate: there is no precondition against
  `idx + j` running past the end of the schedule. Python stops
  `all(...)` at its first false term, so no index past `idx` is read.
- Fitness.LabChargedForOwnStart: constraint 3 (algorithm.py:162-172)
  reads the vectors that constraints 1 and 2 (140-159) have just booked
  for the same entry. So a Lab is always charged for its own start slot,
  and a schedule containing a Lab of at least one hour that starts inside
  the week never scores 0, even with no clash.
- Chromosomes.InitialSchedule: a Lab is not forced to three hours. Only
  `0 <= timeslot <= 7 - WeeklyHours` is drawn. The Lab limit is only a
  fitness penalty.

**Input assumptions.**
- WeeklyHours is held as an int (the `int(...)` of the CSV text).
  Evolution.Evolve requires every class to have 1 to 7 weekly hours.
  For 8 or more the range of the slot draw at algorithm.py:43 is empty,
  so `random.choice` raises. For 0 or less the draw can succeed, and
  `fitness` then may index past the seventh slot (algorithm.py:140): it
  does when the drawn slot is 7 or more, and scores normally otherwise.
- DictGrid.GenerateRandomTimetable: it requires every drawn cell to lie
  in the grid, which no draw meets when there are courses and num_days or
  num_time_slots is below 1, as `random.randint(1, 0)` raises then
  (timetable.py:58-59). The only run uses 5 days and 3 slots.
- DictCrossover.Crossover: it requires at least two cells. With fewer,
  `random.randint(1, len - 1)` raises.
- Chromosomes.InitDrawsFit: its room range 1..num_rooms and its slot range
  exclude a catalogue with no rooms, where the source's
  `random.randint(1, 0)` raises. The fill draws also exclude an empty class
  list, where `random.choice([])` raises. The model has no error outcome
  for these cases.
- Records.ChoiceFits: it requires 1 <= room <= num_rooms, which no draw
  meets when num_rooms < 1, as `random.randint(1, num_rooms)` raises then.
- Tournament.SelectParents: it requires a non-empty population. With none,
  the sample is empty and `np.argmax([])` raises.
- DictGrid.Mutate: it requires the course pick of every chosen cell to be
  below the number of courses. With an empty course list no cell can be
  chosen, as `random.choice([])` raises on the first one.
- DictCrossover.CrossoverSameKeys: its properties are stated only for
  parents over one key set, as every generated timetable is. For
  different key sets only the function itself describes the children.

**Representation choices.**
- Floating point is not modelled. `1 / (1 + conflicts)` is an exact real,
  MUTATION_RATE 1.5 and the `random()` draws are reals, and no rounding
  is modelled.
- The iteration order of `timetable.items()` is a parameter, a list of
  the keys. The count is proved not to depend on it.
- Evolution.MutateChild: the child Chromosome at algorithm.py:247-249
  is built with a fresh random schedule that is then overwritten. That
  discarded initialisation and its draws are not modelled.
