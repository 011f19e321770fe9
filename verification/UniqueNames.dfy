/** mfg_event_converter.py: unique names for measurements and attachments of different phases. */
module UniqueNames {
  import opened Prelude
  import opened Names

  /** The k-th occurrence of a name among `counts` names; a name that occurs once keeps its name. */
  function UniqueName(counts: multiset<string>, name: string, k: nat): string {
    if counts[name] == 1 then name else Numbered(name, k)
  }

  /** What make_unique answers to a sequence of calls. */
  function UniqueNamesOf(counts: multiset<string>, calls: seq<string>): seq<string> {
    seq(|calls|, i requires 0 <= i < |calls| => UniqueName(counts, calls[i], multiset(calls[..i])[calls[i]]))
  }

  class UniqueNameMaker {
    /** How often each name was given, and how often it was seen since. */
    var counts: multiset<string>
    var seen: multiset<string>
    /** The calls of make_unique so far that did not raise. */
    ghost var calls: seq<string>

    ghost predicate Valid()
      reads this
    {
      forall n :: seen[n] == (if counts[n] == 1 then 0 else multiset(calls)[n])
    }

    constructor (allNames: multiset<string>)
      ensures Valid() && counts == allNames && calls == []
    {
      counts := allNames;
      seen := multiset{};
      calls := [];
    }

    /** None is the AssertionError on a name the constructor was not given. */
    method MakeUnique(name: string) returns (r: Option<string>)
      requires Valid()
      modifies this
      ensures Valid() && counts == old(counts)
      ensures name !in counts ==> r == None && calls == old(calls) && seen == old(seen)
      ensures name in counts ==>
                r == Some(UniqueName(counts, name, multiset(old(calls))[name])) && calls == old(calls) + [name]
    {
      var count := counts[name];
      if count < 1 { return None; }
      calls := calls + [name];
      if count == 1 { return Some(name); }
      seen := seen[name := seen[name] + 1];
      return Some(Numbered(name, seen[name] - 1));
    }
  }

  // ---------------------------------------------------------------- when the results are distinct

  ghost predicate Distinct<T>(xs: seq<T>) {
    forall i, j :: 0 <= i < j < |xs| ==> xs[i] != xs[j]
  }

  /** A name given once is the k-th numbered form of a name called more than k times. */
  ghost predicate Clash(counts: multiset<string>, calls: seq<string>, u: string, n: string, k: nat) {
    && u in calls && counts[u] == 1
    && counts[n] != 1 && k < multiset(calls)[n]
    && Numbered(n, k) == u
  }

  lemma {:induction false} KthOccurrence(calls: seq<string>, n: string, k: nat) returns (i: nat)
    requires k < multiset(calls)[n]
    ensures i < |calls| && calls[i] == n && multiset(calls[..i])[n] == k
    decreases |calls|
  {
    var last := |calls| - 1;
    assert calls == calls[..last] + [calls[last]];
    if k < multiset(calls[..last])[n] {
      i := KthOccurrence(calls[..last], n, k);
      assert calls[..last][..i] == calls[..i];
    } else {
      i := last;
    }
  }

  lemma EarlierOccurrenceCounts(calls: seq<string>, i: nat, j: nat)
    requires i < j < |calls| && calls[i] == calls[j]
    ensures multiset(calls[..i])[calls[i]] < multiset(calls[..j])[calls[j]]
    ensures multiset(calls)[calls[i]] >= 2
  {
    assert calls[..j] == calls[..i] + [calls[i]] + calls[i + 1..j];
    assert calls == calls[..j] + [calls[j]] + calls[j + 1..];
  }

  /**
    Over any sequence of calls that uses each given name at most as often as it was given, the
    results are pairwise distinct if and only if no name given once equals a numbered form that
    is handed out for a repeated name: ["a", "a", "a_0"] breaks it. Only names given once matter,
    so that ["a", "a", "a_0", "a_0"] does not.
   */
  lemma UniqueNamesDistinctIff(counts: multiset<string>, calls: seq<string>)
    requires multiset(calls) <= counts
    ensures Distinct(UniqueNamesOf(counts, calls)) <==> forall u, n, k: nat :: !Clash(counts, calls, u, n, k)
  {
    var rs := UniqueNamesOf(counts, calls);
    if u, n, k: nat :| Clash(counts, calls, u, n, k) {
      var i :| 0 <= i < |calls| && calls[i] == u;
      var j := KthOccurrence(calls, n, k);
      assert rs[i] == u == rs[j] && i != j;
    }
    if !Distinct(rs) {
      var i, j :| 0 <= i < j < |rs| && rs[i] == rs[j];
      var k, l := multiset(calls[..i])[calls[i]], multiset(calls[..j])[calls[j]];
      OccurrencesBefore(calls, i);
      OccurrencesBefore(calls, j);
      if calls[i] == calls[j] {
        EarlierOccurrenceCounts(calls, i, j);
        NumberedInjective(calls[i], k, calls[j], l);
      } else if counts[calls[i]] == 1 {
        assert Clash(counts, calls, calls[i], calls[j], l);
      } else if counts[calls[j]] == 1 {
        assert Clash(counts, calls, calls[j], calls[i], k);
      } else {
        NumberedInjective(calls[i], k, calls[j], l);
      }
    }
  }

  lemma OccurrencesBefore(calls: seq<string>, i: nat)
    requires i < |calls|
    ensures multiset(calls[..i])[calls[i]] < multiset(calls)[calls[i]]
  {
    assert calls == calls[..i] + [calls[i]] + calls[i + 1..];
  }

  lemma ClashExample()
    ensures Numbered("a", 0) == "a_0"
    ensures !Distinct(UniqueNamesOf(multiset{"a", "a", "a_0"}, ["a", "a", "a_0"]))
  {
    var counts, calls := multiset{"a", "a", "a_0"}, ["a", "a", "a_0"];
    assert LastIndex("a", '/') == -1 && LastIndex("a", '.') == -1;
    assert Numbered("a", 0) == "a_0";
    assert UniqueNamesOf(counts, calls)[0] == UniqueNamesOf(counts, calls)[2];
  }
}
