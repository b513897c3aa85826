/** The snapshot cache gate: whether this run lists the images of every region again. */
module CacheGate {

  /** Fewer snapshot files than this on disk forces a refetch. */
  const MinSnapshots: nat := 5

  /** Fetch when the refetch flag is set or fewer than MinSnapshots `*.json` files exist. */
  predicate ShouldFetch(refetch: bool, existing: nat)
  {
    refetch || existing < MinSnapshots
  }

  /** The decision, both ways: the flag always fetches; without it, exactly a short cache fetches. */
  lemma FetchDecision(refetch: bool, existing: nat)
    ensures refetch ==> ShouldFetch(refetch, existing)
    ensures !refetch ==> (ShouldFetch(refetch, existing) <==> existing < 5)
  {
  }

  /** A cache that is already enough stays enough as files are added. */
  lemma CacheSufficiencyMonotone(existing: nat, more: nat)
    requires !ShouldFetch(false, existing) && existing <= more
    ensures !ShouldFetch(false, more)
  {
  }

  /** Concrete decisions: 3 files and no flag fetch, 5 files and no flag do not, the flag always fetches. */
  lemma GateExamples(existing: nat)
    ensures ShouldFetch(false, 3)
    ensures !ShouldFetch(false, 5)
    ensures ShouldFetch(true, existing)
  {
  }
}
