/**
 * The plain log of contacts: who was heard from, and when. The reference that the
 * interval index of connections.h is compared with.
 */
module ContactLog {
  import opened Intervals
  import opened Sequences

  /** All that comparing two socket addresses looks at. */
  datatype Address = Address(ip: nat, port: nat)

  datatype Contact = Contact(address: Address, time: int)

  function Times(log: seq<Contact>): (r: seq<int>)
    ensures |r| == |log|
    ensures forall i :: 0 <= i < |log| ==> r[i] == log[i].time
  {
    seq(|log|, i requires 0 <= i < |log| => log[i].time)
  }

  /** The times at which one address was heard from. */
  function TimesOf(log: seq<Contact>, a: Address): seq<int> {
    if log == [] then []
    else
      var front, last := log[..|log| - 1], log[|log| - 1];
      if last.address == a then TimesOf(front, a) + [last.time] else TimesOf(front, a)
  }

  /** The naive test: some contact of the address at most TIMEOUT before the time point. */
  ghost predicate Contacted(log: seq<Contact>, a: Address, timestamp: int) {
    exists i :: 0 <= i < |log| && log[i].address == a && log[i].time <= timestamp <= log[i].time + TIMEOUT
  }

  lemma TimesOfSnoc(log: seq<Contact>, c: Contact, a: Address)
    ensures TimesOf(log + [c], a) == if c.address == a then TimesOf(log, a) + [c.time] else TimesOf(log, a)
  {
    assert (log + [c])[..|log|] == log;
  }

  lemma {:induction false} TimesOfIsSorted(log: seq<Contact>, a: Address)
    requires NonDecreasing(Times(log))
    ensures NonDecreasing(TimesOf(log, a))
    ensures forall i :: 0 <= i < |TimesOf(log, a)| ==> TimesOf(log, a)[i] <= log[|log| - 1].time
  {
    if log != [] {
      var front := log[..|log| - 1];
      assert Times(front) == Times(log)[..|log| - 1];
      TimesOfIsSorted(front, a);
      if front != [] {
        assert Times(log)[|log| - 2] <= Times(log)[|log| - 1];
      }
    }
  }

  lemma {:induction false} ContactedIsCovered(log: seq<Contact>, a: Address, t: int)
    ensures Contacted(log, a, t) <==> Covered(TimesOf(log, a), t)
  {
    if log != [] {
      var front, last := log[..|log| - 1], log[|log| - 1];
      var before, all := TimesOf(front, a), TimesOf(log, a);
      ContactedIsCovered(front, a, t);
      if Contacted(front, a, t) {
        var i :| 0 <= i < |front| && front[i].address == a && front[i].time <= t <= front[i].time + TIMEOUT;
        assert log[i] == front[i];
        var j :| 0 <= j < |before| && before[j] <= t <= before[j] + TIMEOUT;
        assert all[j] == before[j];
      } else if last.address == a && last.time <= t <= last.time + TIMEOUT {
        assert all[|before|] == last.time;
        assert log[|log| - 1] == last;
      } else {
        assert !Covered(all, t) by {
          assert forall i :: 0 <= i < |before| ==> all[i] == before[i];
        }
        assert forall i :: 0 <= i < |front| ==> log[i] == front[i];
      }
    }
  }
}
