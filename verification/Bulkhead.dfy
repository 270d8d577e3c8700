/** Concurrency limits per agent and for the process (`AgentConcurrencyBulkhead` in agent_ingress.py). */
module Bulkhead {
  /** The sum of all counts. */
  ghost function Sum(counts: map<string, nat>): nat
    decreases |counts|
  {
    if counts == map[] then 0
    else
      var agent :| agent in counts;
      counts[agent] + Sum(counts - {agent})
  }

  /** Whichever entry is taken out first, the sum is the same. */
  lemma {:induction false} SumWithout(counts: map<string, nat>, agent: string)
    requires agent in counts
    ensures Sum(counts) == counts[agent] + Sum(counts - {agent})
    decreases |counts|
  {
    var first :| first in counts && Sum(counts) == counts[first] + Sum(counts - {first});
    if first != agent {
      SumWithout(counts - {first}, agent);
      SumWithout(counts - {agent}, first);
      assert counts - {first} - {agent} == counts - {agent} - {first};
    }
  }

  lemma SumPut(counts: map<string, nat>, agent: string, n: nat)
    ensures Sum(counts[agent := n]) == n + Sum(counts - {agent})
    ensures Sum(counts) == Sum(counts - {agent}) + if agent in counts then counts[agent] else 0
  {
    SumWithout(counts[agent := n], agent);
    assert counts[agent := n] - {agent} == counts - {agent};
    if agent in counts {
      SumWithout(counts, agent);
    } else {
      assert counts - {agent} == counts;
    }
  }

  function Count(counts: map<string, nat>, agent: string): nat
  {
    if agent in counts then counts[agent] else 0
  }

  class AgentConcurrencyBulkhead {
    const globalLimit: int
    const perAgentLimit: int
    var total: nat
    var perAgent: map<string, nat>

    ghost predicate Valid()
      reads this
    {
      && total == Sum(perAgent)
      && (total > 0 ==> total <= globalLimit)
      && perAgentLimit <= globalLimit
      && forall agent <- perAgent :: 1 <= perAgent[agent] <= perAgentLimit
    }

    constructor (globalLimit: int, perAgentLimit: int)
      ensures Valid() && total == 0 && perAgent == map[]
      ensures this.globalLimit == globalLimit
      ensures this.perAgentLimit == if perAgentLimit <= globalLimit then perAgentLimit else globalLimit
    {
      this.globalLimit := globalLimit;
      this.perAgentLimit := if perAgentLimit <= globalLimit then perAgentLimit else globalLimit;
      total, perAgent := 0, map[];
    }

    /** Refused exactly when one of the two limits is full; nothing changes then. */
    method Acquire(agent: string) returns (granted: bool)
      requires Valid()
      modifies this
      ensures Valid()
      ensures granted <==> old(total) < globalLimit && Count(old(perAgent), agent) < perAgentLimit
      ensures perAgent == if granted then old(perAgent)[agent := Count(old(perAgent), agent) + 1] else old(perAgent)
      ensures total == if granted then old(total) + 1 else old(total)
    {
      var current := if agent in perAgent then perAgent[agent] else 0;
      if total >= globalLimit || current >= perAgentLimit {
        return false;
      }
      SumPut(perAgent, agent, current + 1);
      total := total + 1;
      perAgent := perAgent[agent := current + 1];
      return true;
    }

    /**
     * A release without a matching acquire changes nothing; otherwise both counts drop by exactly one, never below
     * zero.
     */
    method Release(agent: string)
      requires Valid()
      modifies this
      ensures Valid()
      ensures agent !in old(perAgent) ==> perAgent == old(perAgent) && total == old(total)
      ensures agent in old(perAgent) ==>
                && total == old(total) - 1
                && Count(perAgent, agent) == old(perAgent)[agent] - 1
                && perAgent - {agent} == old(perAgent) - {agent}
    {
      var current := if agent in perAgent then perAgent[agent] else 0;
      if current <= 0 {
        return;
      }
      SumPut(perAgent, agent, current - 1);
      assert total - 1 >= 0;
      total := if total - 1 > 0 then total - 1 else 0;
      if current == 1 {
        perAgent := perAgent - {agent};
      } else {
        perAgent := perAgent[agent := current - 1];
      }
    }
  }
}
