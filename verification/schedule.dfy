/**
 * The polling scheduler of WebScraper.startScraper: a counter that flips
 * between 0 and 1 before every run and picks the year to scrape from
 * [current year, current year + 1].
 */
module Schedule {

  /** The delay between runs, 1000 * 60 * 30 ms: half an hour. */
  const CycleDelayMs: nat := 1000 * 60 * 30

  /** `if (year === 0) year++; else year--;` */
  function Toggle(y: nat): (r: nat)
    ensures y < 2 ==> r < 2 && r != y
  {
    if y == 0 then 1 else y - 1
  }

  /** The counter after n flips from its initial 0. */
  function OffsetAfter(n: nat): (y: nat)
    ensures y == 0 || y == 1
  {
    if n == 0 then 0 else Toggle(OffsetAfter(n - 1))
  }

  /** The counter after n flips is the parity of n. */
  lemma {:induction false} OffsetAfterParity(n: nat)
    ensures OffsetAfter(n) == n % 2
  {
    if n > 0 {
      OffsetAfterParity(n - 1);
    }
  }

  /** The state startScraper keeps across runs. */
  class Scheduler {
    /** `years`: the current year and the next, fixed when the scheduler starts. */
    const years: seq<int>
    /** The index into years of the year scraped last. */
    var year: nat
    /** The number of runs started so far. */
    ghost var cycles: nat

    ghost predicate Valid()
      reads this
    {
      |years| == 2 && year == OffsetAfter(cycles)
    }

    constructor (currentYear: int)
      ensures Valid()
      ensures years == [currentYear, currentYear + 1]
      ensures year == 0 && cycles == 0
    {
      years := [currentYear, currentYear + 1];
      year := 0;
      cycles := 0;
    }

    /** The head of `run`: flip the counter, then give the year to scrape. */
    method Step() returns (target: int)
      requires Valid()
      modifies this
      ensures Valid()
      ensures cycles == old(cycles) + 1
      ensures year == Toggle(old(year)) && year < 2
      ensures target == years[year]
    {
      if year == 0 {
        year := year + 1;
      } else {
        year := year - 1;
      }
      cycles := cycles + 1;
      target := years[year];
    }
  }

  /**
   * The years scraped by the first n runs: the scheduler starts at 0 and
   * flips before each run, so run k (from 0) scrapes current year + (k + 1) % 2,
   * the next year first.
   */
  method FirstCycles(currentYear: int, n: nat) returns (targets: seq<int>)
    ensures |targets| == n
    ensures forall k :: 0 <= k < n ==> targets[k] == currentYear + (k + 1) % 2
  {
    var s := new Scheduler(currentYear);
    targets := [];
    while |targets| < n
      invariant s.Valid() && s.years == [currentYear, currentYear + 1]
      invariant s.cycles == |targets| <= n
      invariant forall k :: 0 <= k < |targets| ==> targets[k] == currentYear + (k + 1) % 2
    {
      var y := s.Step();
      OffsetAfterParity(s.cycles);
      targets := targets + [y];
    }
  }
}
