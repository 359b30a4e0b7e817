/** The read side of the memory store (memory.py): the queries that touch what
    they return (by type, important, recent, the context selection and its
    summary, the statistics) and the ones that do not (all, search, shared and
    per-companion).

    A query result is a list of entries, each the handle of a stored object and
    that object's state when the query returns. */
module MemoryQueries {

  import opened Optional
  import opened Text
  import opened Seqs
  import opened MemoryStore

  function Importance(e: Entry): int { e.mem.importance }

  function LastAccessed(e: Entry): int { e.mem.lastAccessed }

  function TouchEntry(e: Entry, now: nat): Entry {
    Entry(e.ref, Touch(e.mem, now))
  }

  function TouchEntries(es: seq<Entry>, now: nat): (r: seq<Entry>)
    ensures |r| == |es|
    ensures forall i :: 0 <= i < |es| ==> r[i] == TouchEntry(es[i], now)
  {
    seq(|es|, i requires 0 <= i < |es| => TouchEntry(es[i], now))
  }

  /** The entries show the state their objects have in `s`. */
  predicate Current(s: Store, es: seq<Entry>) {
    forall i :: 0 <= i < |es| ==> Get(s, es[i].ref) == Some(es[i].mem)
  }

  // ---------------------------------------------------------------------------
  // Facts about handles
  // ---------------------------------------------------------------------------

  /** In a valid store every listed entry is what its handle reads as. */
  lemma GetListed(s: Store, i: nat)
    requires Valid(s) && i < |s.entries|
    ensures Get(s, s.entries[i].ref) == Some(s.entries[i].mem)
  {
    FindDistinct(s.entries, i);
  }

  lemma CurrentListed(s: Store)
    requires Valid(s)
    ensures Current(s, s.entries)
  {
    forall i | 0 <= i < |s.entries| ensures Get(s, s.entries[i].ref) == Some(s.entries[i].mem) {
      GetListed(s, i);
    }
  }

  /** A handle that reads as something names a listed entry. */
  lemma GetIsListed(s: Store, r: Ref)
    requires Get(s, r).Some?
    ensures exists i :: 0 <= i < |s.entries| && s.entries[i] == Entry(r, Get(s, r).value)
  {
    var i := Find(s.entries, r).value;
    assert s.entries[i] == Entry(r, Get(s, r).value);
  }

  lemma FilterRefsDistinct(es: seq<Entry>, p: Entry -> bool)
    requires Distinct(Refs(es))
    ensures Distinct(Refs(Filter(es, p)))
  {
    if |es| > 0 {
      TailRefsDistinct(es);
      FilterRefsDistinct(es[1..], p);
      if p(es[0]) {
        HeadNotFiltered(es, p);
        ConsRefsDistinct(es[0], Filter(es[1..], p));
      }
    }
  }

  lemma ConsRefsDistinct(e: Entry, rest: seq<Entry>)
    requires Distinct(Refs(rest)) && forall j :: 0 <= j < |rest| ==> rest[j].ref != e.ref
    ensures Distinct(Refs([e] + rest))
  {
    var rs := Refs([e] + rest);
    forall a, b | 0 <= a < b < |rs| ensures rs[a] != rs[b] {
      assert rs[b] == Refs(rest)[b - 1];
      if a > 0 {
        assert rs[a] == Refs(rest)[a - 1];
      }
    }
  }

  lemma TailRefsDistinct(es: seq<Entry>)
    requires |es| > 0 && Distinct(Refs(es))
    ensures Distinct(Refs(es[1..]))
  {
    forall a, b | 0 <= a < b < |es| - 1 ensures Refs(es[1..])[a] != Refs(es[1..])[b] {
      assert Refs(es)[a + 1] != Refs(es)[b + 1];
    }
  }

  /** The head's handle is not among the filtered tail's. */
  lemma HeadNotFiltered(es: seq<Entry>, p: Entry -> bool)
    requires |es| > 0 && Distinct(Refs(es))
    ensures forall j :: 0 <= j < |Filter(es[1..], p)| ==> Filter(es[1..], p)[j].ref != es[0].ref
  {
    var rest := Filter(es[1..], p);
    forall j | 0 <= j < |rest| ensures rest[j].ref != es[0].ref {
      var k :| 0 <= k < |es| - 1 && es[1..][k] == rest[j];
      assert Refs(es)[0] != Refs(es)[k + 1];
    }
  }

  /** Distinct elements have multiplicity at most one. */
  lemma DistinctMultiplicity<T>(s: seq<T>)
    requires Distinct(s)
    ensures forall x :: multiset(s)[x] <= 1
  {
    if |s| > 0 {
      assert s == [s[0]] + s[1..];
      DistinctMultiplicity(s[1..]);
      assert s[0] !in multiset(s[1..]);
    }
  }

  lemma MultiplicityDistinct<T>(s: seq<T>)
    requires forall x :: multiset(s)[x] <= 1
    ensures Distinct(s)
  {
    if |s| > 0 {
      assert s == [s[0]] + s[1..];
      assert multiset(s) == multiset{s[0]} + multiset(s[1..]);
      assert forall x :: multiset(s[1..])[x] <= multiset(s)[x];
      MultiplicityDistinct(s[1..]);
      assert s[0] !in multiset(s[1..]);
    }
  }

  lemma DistinctRefsDistinct(es: seq<Entry>)
    requires Distinct(Refs(es))
    ensures Distinct(es)
  {
    forall a, b | 0 <= a < b < |es| ensures es[a] != es[b] {
      assert Refs(es)[a] != Refs(es)[b];
    }
  }

  /** A permutation of entries with distinct handles has distinct handles. */
  lemma PermutationRefsDistinct(a: seq<Entry>, b: seq<Entry>)
    requires Distinct(Refs(a)) && multiset(a) == multiset(b)
    ensures Distinct(Refs(b))
  {
    DistinctRefsDistinct(a);
    DistinctMultiplicity(a);
    MultiplicityDistinct(b);
    forall i, j | 0 <= i < j < |b| ensures Refs(b)[i] != Refs(b)[j] {
      assert b[i] in multiset(a) && b[j] in multiset(a);
      var p :| 0 <= p < |a| && a[p] == b[i];
      var q :| 0 <= q < |a| && a[q] == b[j];
      assert b[i] != b[j];
      if p != q {
        assert Refs(a)[p] != Refs(a)[q];
      }
    }
  }

  lemma SliceRefsDistinct(es: seq<Entry>, k: nat)
    requires Distinct(Refs(es)) && k <= |es|
    ensures Distinct(Refs(es[..k]))
  {
    forall a, b | 0 <= a < b < k ensures Refs(es[..k])[a] != Refs(es[..k])[b] {
      assert Refs(es)[a] != Refs(es)[b];
    }
  }

  /** Touching the matching objects and then selecting the matches gives the
      matches, touched, when touching does not change whether an object matches. */
  lemma {:induction false} FilterTouched(es: seq<Entry>, rs: set<Ref>, p: Entry -> bool, now: nat, t: seq<Entry>)
    requires forall e: Entry :: p(TouchEntry(e, now)) == p(e)
    requires forall i :: 0 <= i < |es| && p(es[i]) ==> es[i].ref in rs
    requires |t| == |es|
    requires forall i :: 0 <= i < |es| ==> t[i] == (if es[i].ref in rs then TouchEntry(es[i], now) else es[i])
    ensures Filter(t, p) == TouchEntries(Filter(es, p), now)
  {
    if |es| > 0 {
      FilterTouched(es[1..], rs, p, now, t[1..]);
      assert p(t[0]) == p(es[0]);
      TouchEntriesCons(es[0], Filter(es[1..], p), now);
    }
  }

  lemma TouchEntriesCons(e: Entry, es: seq<Entry>, now: nat)
    ensures TouchEntries([e] + es, now) == [TouchEntry(e, now)] + TouchEntries(es, now)
  {
  }

  // ---------------------------------------------------------------------------
  // Queries that touch
  // ---------------------------------------------------------------------------

  predicate OfType(memoryType: string, e: Entry) { e.mem.memoryType == memoryType }

  predicate AtLeast(minImportance: int, e: Entry) { e.mem.importance >= minImportance }

  /** `[m for m in memories if m.memory_type == memoryType]`. */
  function OfTypeIn(es: seq<Entry>, memoryType: string): seq<Entry> {
    Filter(es, e => OfType(memoryType, e))
  }

  /** `[m for m in memories if m.importance >= minImportance]`. */
  function AtLeastIn(es: seq<Entry>, minImportance: int): seq<Entry> {
    Filter(es, e => AtLeast(minImportance, e))
  }

  /** Touch every listed object once (the loop over a filtered list). */
  function TouchAll(s: Store, hits: seq<Entry>, now: nat): (t: Store)
    requires Valid(s)
    ensures Valid(t)
    ensures t == TouchRefs(s, RefSet(hits), now)
  {
    TouchRefsValid(s, RefSet(hits), now);
    TouchRefs(s, RefSet(hits), now)
  }

  /** The records matching `p`, each touched, as the store now holds them. */
  lemma TouchMatchingResult(s: Store, p: Entry -> bool, now: nat)
    requires Valid(s)
    requires forall e: Entry :: p(TouchEntry(e, now)) == p(e)
    ensures Filter(TouchRefs(s, RefSet(Filter(s.entries, p)), now).entries, p) == TouchEntries(Filter(s.entries, p), now)
    ensures Current(TouchRefs(s, RefSet(Filter(s.entries, p)), now), TouchEntries(Filter(s.entries, p), now))
    ensures Distinct(Refs(TouchEntries(Filter(s.entries, p), now)))
  {
    var rs := RefSet(Filter(s.entries, p));
    var t := TouchRefs(s, rs, now);
    forall i | 0 <= i < |s.entries| && p(s.entries[i]) ensures s.entries[i].ref in rs {
      var f := Filter(s.entries, p);
      assert s.entries[i] in f;
      var k :| 0 <= k < |f| && f[k] == s.entries[i];
    }
    FilterTouched(s.entries, rs, p, now, t.entries);
    TouchRefsValid(s, rs, now);
    CurrentListed(t);
    var r := Filter(t.entries, p);
    forall i | 0 <= i < |r| ensures Get(t, r[i].ref) == Some(r[i].mem) {
      var k :| 0 <= k < |t.entries| && t.entries[k] == r[i];
    }
    FilterRefsDistinct(t.entries, p);
  }

  /** `get_memories_by_type`: every record of that type, in store order, each
      touched once; nothing else changes. */
  function GetMemoriesByType(s: Store, memoryType: string, now: nat): (r: (Store, seq<Entry>))
    requires Valid(s)
    ensures Valid(r.0)
    ensures r.0 == TouchRefs(s, RefSet(OfTypeIn(s.entries, memoryType)), now)
    ensures r.1 == TouchEntries(OfTypeIn(s.entries, memoryType), now)
    ensures Current(r.0, r.1) && Distinct(Refs(r.1))
    ensures forall i :: 0 <= i < |r.1| ==> r.1[i].mem.memoryType == memoryType
    ensures forall i :: 0 <= i < |s.entries| && s.entries[i].mem.memoryType == memoryType ==>
              TouchEntry(s.entries[i], now) in r.1
  {
    var p := e => OfType(memoryType, e);
    var t := TouchAll(s, OfTypeIn(s.entries, memoryType), now);
    TouchMatchingResult(s, p, now);
    var r := Filter(t.entries, p);
    forall i | 0 <= i < |s.entries| && s.entries[i].mem.memoryType == memoryType
      ensures TouchEntry(s.entries[i], now) in r
    {
      var f := OfTypeIn(s.entries, memoryType);
      assert s.entries[i] in f;
      var k :| 0 <= k < |f| && f[k] == s.entries[i];
      assert r[k] == TouchEntry(s.entries[i], now);
    }
    (t, r)
  }

  /** `get_important_memories`: every record with at least `minImportance`,
      each touched once, ordered by importance, largest first. */
  function GetImportantMemories(s: Store, minImportance: int, now: nat): (r: (Store, seq<Entry>))
    requires Valid(s)
    ensures Valid(r.0)
    ensures r.0 == TouchRefs(s, RefSet(AtLeastIn(s.entries, minImportance)), now)
    ensures multiset(r.1) == multiset(TouchEntries(AtLeastIn(s.entries, minImportance), now))
    ensures SortedDesc(r.1, Importance)
    ensures Current(r.0, r.1) && Distinct(Refs(r.1))
    ensures forall i :: 0 <= i < |r.1| ==> r.1[i].mem.importance >= minImportance
  {
    var p := e => AtLeast(minImportance, e);
    var t := TouchAll(s, AtLeastIn(s.entries, minImportance), now);
    TouchMatchingResult(s, p, now);
    var hits := Filter(t.entries, p);
    var sorted := SortDesc(hits, Importance);
    PermutationRefsDistinct(hits, sorted);
    PermutedHits(t, hits, sorted, minImportance);
    (t, sorted)
  }

  /** A permutation of live, important entries is live and important. */
  lemma PermutedHits(t: Store, hits: seq<Entry>, sorted: seq<Entry>, minImportance: int)
    requires Current(t, hits) && forall i :: 0 <= i < |hits| ==> hits[i].mem.importance >= minImportance
    requires multiset(sorted) == multiset(hits)
    ensures Current(t, sorted)
    ensures forall i :: 0 <= i < |sorted| ==> sorted[i].mem.importance >= minImportance
  {
    forall i | 0 <= i < |sorted|
      ensures Get(t, sorted[i].ref) == Some(sorted[i].mem) && sorted[i].mem.importance >= minImportance
    {
      assert sorted[i] in multiset(hits);
      var k :| 0 <= k < |hits| && hits[k] == sorted[i];
    }
  }

  /** `get_recent_memories`: the `limit` records accessed most recently (by
      access time before the call), largest first, each then touched once.
      Python slice bounds apply to `limit`. */
  function GetRecentMemories(s: Store, limit: int, now: nat): (r: (Store, seq<Entry>))
    requires Valid(s)
    ensures Valid(r.0)
    ensures r.0 == TouchRefs(s, RefSet(r.1), now)
    ensures |r.1| == |PyPrefix(s.entries, limit)|
    ensures Current(r.0, r.1) && Distinct(Refs(r.1))
    ensures forall i :: 0 <= i < |r.1| ==>
              Get(s, r.1[i].ref).Some? && r.1[i].mem == Touch(Get(s, r.1[i].ref).value, now)
    ensures forall i, j :: 0 <= i < j < |r.1| ==>
              Get(s, r.1[i].ref).value.lastAccessed >= Get(s, r.1[j].ref).value.lastAccessed
    ensures forall i, k :: 0 <= i < |r.1| && 0 <= k < |s.entries| && s.entries[k].ref !in RefSet(r.1) ==>
              s.entries[k].mem.lastAccessed <= Get(s, r.1[i].ref).value.lastAccessed
  {
    var sorted := SortDesc(s.entries, LastAccessed);
    var picked := PyPrefix(sorted, limit);
    var t := TouchAll(s, picked, now);
    RecentFacts(s, limit, now, sorted, picked);
    (t, TouchEntries(picked, now))
  }

  lemma RecentFacts(s: Store, limit: int, now: nat, sorted: seq<Entry>, picked: seq<Entry>)
    requires Valid(s)
    requires sorted == SortDesc(s.entries, LastAccessed)
    requires picked == PyPrefix(sorted, limit)
    ensures RefSet(TouchEntries(picked, now)) == RefSet(picked)
    ensures |picked| == |PyPrefix(s.entries, limit)|
    ensures Distinct(Refs(TouchEntries(picked, now)))
    ensures forall i :: 0 <= i < |picked| ==> Get(s, picked[i].ref) == Some(picked[i].mem)
    ensures Current(TouchRefs(s, RefSet(picked), now), TouchEntries(picked, now))
    ensures forall i, k :: 0 <= i < |picked| && 0 <= k < |s.entries| && s.entries[k].ref !in RefSet(picked) ==>
              s.entries[k].mem.lastAccessed <= picked[i].mem.lastAccessed
  {
    TouchEntriesRefs(picked, now);
    PermutationRefsDistinct(s.entries, sorted);
    assert picked == sorted[..|picked|];
    SliceRefsDistinct(sorted, |picked|);
    PickedListed(s, sorted, picked);
    PickedCurrent(s, picked, now);
    PickedMostRecent(s, sorted, picked);
  }

  lemma TouchEntriesRefs(es: seq<Entry>, now: nat)
    ensures Refs(TouchEntries(es, now)) == Refs(es)
    ensures RefSet(TouchEntries(es, now)) == RefSet(es)
  {
    var tp := TouchEntries(es, now);
    assert Refs(tp) == Refs(es);
    forall x ensures x in RefSet(tp) <==> x in RefSet(es) {
      if x in RefSet(es) {
        var i :| 0 <= i < |es| && es[i].ref == x;
        assert tp[i].ref == x;
      }
    }
  }

  lemma PickedListed(s: Store, sorted: seq<Entry>, picked: seq<Entry>)
    requires Valid(s) && multiset(sorted) == multiset(s.entries)
    requires |picked| <= |sorted| && picked == sorted[..|picked|]
    ensures forall i :: 0 <= i < |picked| ==> Get(s, picked[i].ref) == Some(picked[i].mem)
  {
    CurrentListed(s);
    forall i | 0 <= i < |picked| ensures Get(s, picked[i].ref) == Some(picked[i].mem) {
      assert picked[i] == sorted[i];
      assert sorted[i] in multiset(s.entries);
      var k :| 0 <= k < |s.entries| && s.entries[k] == sorted[i];
    }
  }

  lemma PickedCurrent(s: Store, picked: seq<Entry>, now: nat)
    requires forall i :: 0 <= i < |picked| ==> Get(s, picked[i].ref) == Some(picked[i].mem)
    ensures Current(TouchRefs(s, RefSet(picked), now), TouchEntries(picked, now))
  {
    var tp := TouchEntries(picked, now);
    var t := TouchRefs(s, RefSet(picked), now);
    forall i | 0 <= i < |tp| ensures Get(t, tp[i].ref) == Some(tp[i].mem) {
      GetTouchRefs(s, RefSet(picked), now, picked[i].ref);
    }
  }

  /** Whatever the prefix of the sorted list leaves out was accessed no later
      than anything in it. */
  lemma PickedMostRecent(s: Store, sorted: seq<Entry>, picked: seq<Entry>)
    requires multiset(sorted) == multiset(s.entries) && SortedDesc(sorted, LastAccessed)
    requires |picked| <= |sorted| && picked == sorted[..|picked|]
    ensures forall i, k :: 0 <= i < |picked| && 0 <= k < |s.entries| && s.entries[k].ref !in RefSet(picked) ==>
              s.entries[k].mem.lastAccessed <= picked[i].mem.lastAccessed
  {
    forall i, k | 0 <= i < |picked| && 0 <= k < |s.entries| && s.entries[k].ref !in RefSet(picked)
      ensures s.entries[k].mem.lastAccessed <= picked[i].mem.lastAccessed
    {
      assert s.entries[k] in multiset(sorted);
      var q :| 0 <= q < |sorted| && sorted[q] == s.entries[k];
      assert picked[i] == sorted[i];
      assert LastAccessed(sorted[i]) >= LastAccessed(sorted[q]);
    }
  }

  // ---------------------------------------------------------------------------
  // get_memories_for_context
  // ---------------------------------------------------------------------------

  /** The state of each listed object in `s`. */
  function Deref(s: Store, es: seq<Entry>): (r: seq<Entry>)
    requires forall i :: 0 <= i < |es| ==> Get(s, es[i].ref).Some?
    ensures |r| == |es| && Refs(r) == Refs(es)
    ensures Current(s, r)
  {
    seq(|es|, i requires 0 <= i < |es| && Get(s, es[i].ref).Some? => Entry(es[i].ref, Get(s, es[i].ref).value))
  }

  /** `m not in important`: dataclass equality compares field values. */
  predicate NotAmong(important: seq<Entry>, e: Entry) {
    e.mem !in Mems(important)
  }

  /** `[m for m in recent if m not in important]`. */
  function NotIn(recent: seq<Entry>, important: seq<Entry>): seq<Entry> {
    Filter(recent, e => NotAmong(important, e))
  }

  /** Records of importance 3 or more come first, largest first. */
  predicate ImportantFirst(es: seq<Entry>) {
    forall i, j :: 0 <= i < j < |es| && es[j].mem.importance >= 3 ==> es[i].mem.importance >= es[j].mem.importance
  }

  /** The candidate list of `get_memories_for_context` before the cut: the
      important records read afresh, then the recent ones not among them. */
  function ContextCandidates(s: Store, now: nat): (r: (Store, seq<Entry>))
    requires Valid(s)
    ensures Valid(r.0)
    ensures Current(r.0, r.1) && Distinct(Refs(r.1)) && ImportantFirst(r.1)
    ensures |AtLeastIn(s.entries, 3)| <= |r.1|
    ensures forall k :: 0 <= k < |s.entries| && s.entries[k].mem.importance >= 3 ==>
              s.entries[k].ref in Refs(r.1[..|AtLeastIn(s.entries, 3)|])
    ensures |s.entries| > 0 ==> |r.1| > 0
  {
    var imp := GetImportantMemories(s, 3, now);
    var rec := GetRecentMemories(imp.0, 20, now);
    ImportantNowFacts(s, now, imp.0, imp.1, rec.0, RefSet(rec.1));
    var importantNow := Deref(rec.0, imp.1);
    var rest := NotIn(rec.1, importantNow);
    RestFacts(s, now, imp.0, RefSet(AtLeastIn(s.entries, 3)), rec.0, RefSet(rec.1), rec.1, importantNow);
    var all := importantNow + rest;
    CombinedFacts(rec.0, importantNow, rest);
    assert all[..|importantNow|] == importantNow;
    (rec.0, all)
  }

  /** `get_memories_for_context`: the important records (importance at least
      3, largest first) followed by those of the 20 most recent that are not
      already among them, cut to `maxCount`. No object appears twice, the
      important ones come first, and all important records fit when there are
      at most `maxCount` of them. */
  function GetMemoriesForContext(s: Store, maxCount: int, now: nat): (r: (Store, seq<Entry>))
    requires Valid(s)
    ensures Valid(r.0)
    ensures maxCount >= 0 ==> |r.1| <= maxCount
    ensures Current(r.0, r.1) && Distinct(Refs(r.1)) && ImportantFirst(r.1)
    ensures maxCount >= |AtLeastIn(s.entries, 3)| ==>
              forall k :: 0 <= k < |s.entries| && s.entries[k].mem.importance >= 3 ==> s.entries[k].ref in Refs(r.1)
    ensures maxCount > 0 && |s.entries| > 0 ==> |r.1| > 0
  {
    var c := ContextCandidates(s, now);
    PrefixFacts(c.0, c.1, maxCount);
    PrefixKeeps(c.1, |AtLeastIn(s.entries, 3)|, maxCount);
    (c.0, PyPrefix(c.1, maxCount))
  }

  lemma PrefixKeeps(all: seq<Entry>, k: nat, n: int)
    requires k <= |all|
    ensures k <= n ==> forall x :: x in Refs(all[..k]) ==> x in Refs(PyPrefix(all, n))
  {
    forall x | k <= n && x in Refs(all[..k]) ensures x in Refs(PyPrefix(all, n)) {
      var i :| 0 <= i < k && Refs(all[..k])[i] == x;
      assert Refs(PyPrefix(all, n))[i] == x;
    }
  }

  /** Touching keeps importance and which handles read as something. */
  lemma ImportanceThroughTouch(s: Store, rs: set<Ref>, now: nat, x: Ref)
    ensures Get(TouchRefs(s, rs, now), x).Some? == Get(s, x).Some?
    ensures Get(s, x).Some? ==> Get(TouchRefs(s, rs, now), x).value.importance == Get(s, x).value.importance
  {
    GetTouchRefs(s, rs, now, x);
  }

  /** After the recent query, the important list read afresh still has its
      handles, importances and order, and covers every important record. */
  lemma ImportantNowFacts(s: Store, now: nat, s1: Store, important: seq<Entry>, s2: Store, rs2: set<Ref>)
    requires Valid(s)
    requires multiset(important) == multiset(TouchEntries(AtLeastIn(s.entries, 3), now))
    requires SortedDesc(important, Importance) && Current(s1, important) && Distinct(Refs(important))
    requires forall i :: 0 <= i < |important| ==> important[i].mem.importance >= 3
    requires s2 == TouchRefs(s1, rs2, now)
    ensures forall i :: 0 <= i < |important| ==> Get(s2, important[i].ref).Some?
    ensures Distinct(Refs(Deref(s2, important)))
    ensures SortedDesc(Deref(s2, important), Importance)
    ensures forall i :: 0 <= i < |important| ==> Deref(s2, important)[i].mem.importance >= 3
    ensures |Deref(s2, important)| == |AtLeastIn(s.entries, 3)|
    ensures forall k :: 0 <= k < |s.entries| && s.entries[k].mem.importance >= 3 ==>
              s.entries[k].ref in Refs(Deref(s2, important))
  {
    forall i | 0 <= i < |important|
      ensures Get(s2, important[i].ref).Some?
      ensures Get(s2, important[i].ref).value.importance == important[i].mem.importance
    {
      ImportanceThroughTouch(s1, rs2, now, important[i].ref);
    }
    var importantNow := Deref(s2, important);
    assert SortedDesc(importantNow, Importance) by {
      forall i, j | 0 <= i < j < |importantNow|
        ensures Importance(importantNow[i]) >= Importance(importantNow[j])
      {
        assert Importance(important[i]) >= Importance(important[j]);
      }
    }
    ImportantRefsCover(s, now, important);
  }

  /** The important list holds a handle for every record of importance 3 or
      more, and no more entries than there are such records. */
  lemma ImportantRefsCover(s: Store, now: nat, important: seq<Entry>)
    requires multiset(important) == multiset(TouchEntries(AtLeastIn(s.entries, 3), now))
    ensures forall k :: 0 <= k < |s.entries| && s.entries[k].mem.importance >= 3 ==> s.entries[k].ref in Refs(important)
    ensures |important| == |AtLeastIn(s.entries, 3)|
  {
    var f := AtLeastIn(s.entries, 3);
    var tf := TouchEntries(f, now);
    forall k | 0 <= k < |s.entries| && s.entries[k].mem.importance >= 3
      ensures s.entries[k].ref in Refs(important)
    {
      assert s.entries[k] in f;
      var q :| 0 <= q < |f| && f[q] == s.entries[k];
      assert tf[q] in multiset(important);
      var j :| 0 <= j < |important| && important[j] == tf[q];
      assert Refs(important)[j] == s.entries[k].ref;
    }
    assert |important| == |f| by {
      assert |multiset(important)| == |multiset(tf)|;
    }
  }

  /** What the `not in` filter keeps of the recent list is below importance 3,
      shares no handle with the important list, and still reads as itself. */
  lemma RestFacts(s: Store, now: nat, s1: Store, rs1: set<Ref>, s2: Store, rs2: set<Ref>,
                  recent: seq<Entry>, importantNow: seq<Entry>)
    requires Valid(s)
    requires s1 == TouchRefs(s, rs1, now) && s2 == TouchRefs(s1, rs2, now)
    requires Current(s2, recent) && Distinct(Refs(recent))
    requires Current(s2, importantNow)
    requires forall k :: 0 <= k < |s.entries| && s.entries[k].mem.importance >= 3 ==>
               s.entries[k].ref in Refs(importantNow)
    ensures forall i :: 0 <= i < |NotIn(recent, importantNow)| ==>
              NotIn(recent, importantNow)[i].mem.importance < 3 &&
              NotIn(recent, importantNow)[i].ref !in Refs(importantNow)
    ensures Current(s2, NotIn(recent, importantNow)) && Distinct(Refs(NotIn(recent, importantNow)))
    ensures |importantNow| == 0 ==> NotIn(recent, importantNow) == recent
  {
    var rest := NotIn(recent, importantNow);
    forall i | 0 <= i < |rest|
      ensures rest[i].mem.importance < 3
      ensures rest[i].ref !in Refs(importantNow)
      ensures Get(s2, rest[i].ref) == Some(rest[i].mem)
    {
      var e := rest[i];
      assert e in recent && NotAmong(importantNow, e);
      var j :| 0 <= j < |recent| && recent[j] == e;
      assert Get(s2, e.ref) == Some(e.mem);
      ImportanceThroughTouch(s1, rs2, now, e.ref);
      ImportanceThroughTouch(s, rs1, now, e.ref);
      GetIsListed(s, e.ref);
    }
    FilterRefsDistinct(recent, e => NotAmong(importantNow, e));
    if |importantNow| == 0 {
      FilterAll(recent, e => NotAmong(importantNow, e));
    }
  }

  lemma CombinedFacts(s: Store, importantNow: seq<Entry>, rest: seq<Entry>)
    requires Current(s, importantNow) && Current(s, rest)
    requires Distinct(Refs(importantNow)) && Distinct(Refs(rest))
    requires SortedDesc(importantNow, Importance)
    requires forall i :: 0 <= i < |rest| ==> rest[i].mem.importance < 3 && rest[i].ref !in Refs(importantNow)
    ensures Current(s, importantNow + rest) && Distinct(Refs(importantNow + rest))
    ensures ImportantFirst(importantNow + rest)
  {
    var all := importantNow + rest;
    var n := |importantNow|;
    forall a, b | 0 <= a < b < |all| ensures Refs(all)[a] != Refs(all)[b] {
      if b < n {
        assert Refs(importantNow)[a] != Refs(importantNow)[b];
      } else if a >= n {
        assert Refs(rest)[a - n] != Refs(rest)[b - n];
      } else {
        assert all[b] == rest[b - n];
        assert Refs(importantNow)[a] == all[a].ref;
      }
    }
    forall i, j | 0 <= i < j < |all| && all[j].mem.importance >= 3
      ensures all[i].mem.importance >= all[j].mem.importance
    {
      assert Importance(importantNow[i]) >= Importance(importantNow[j]);
    }
  }

  lemma PrefixFacts(s: Store, all: seq<Entry>, n: int)
    requires Current(s, all) && Distinct(Refs(all)) && ImportantFirst(all)
    ensures Current(s, PyPrefix(all, n)) && Distinct(Refs(PyPrefix(all, n))) && ImportantFirst(PyPrefix(all, n))
  {
    var p := PyPrefix(all, n);
    SliceRefsDistinct(all, |p|);
  }

  // ---------------------------------------------------------------------------
  // get_context_summary
  // ---------------------------------------------------------------------------

  const NoInformation: string := "No information about the user yet."

  datatype Group = Group(memoryType: string, members: seq<Memory>)

  /** Add `m` to the group of its type, opening a new group at the end when
      its type has none yet (`by_type` keeps first-insertion order). */
  function AddToGroups(gs: seq<Group>, m: Memory): seq<Group> {
    if |gs| == 0 then [Group(m.memoryType, [m])]
    else if gs[0].memoryType == m.memoryType then [gs[0].(members := gs[0].members + [m])] + gs[1..]
    else [gs[0]] + AddToGroups(gs[1..], m)
  }

  /** The `by_type` dictionary, built by one pass over the records. */
  function GroupByType(ms: seq<Memory>): seq<Group> {
    if |ms| == 0 then []
    else AddToGroups(GroupByType(ms[..|ms| - 1]), ms[|ms| - 1])
  }

  function GroupTypes(gs: seq<Group>): (r: seq<string>)
    ensures |r| == |gs|
    ensures forall i :: 0 <= i < |gs| ==> r[i] == gs[i].memoryType
  {
    seq(|gs|, i requires 0 <= i < |gs| => gs[i].memoryType)
  }

  /** The records of type `t`, in order. */
  function MembersOf(ms: seq<Memory>, t: string): seq<Memory> {
    if |ms| == 0 then [] else (if ms[0].memoryType == t then [ms[0]] else []) + MembersOf(ms[1..], t)
  }

  lemma MembersOfAppend(ms: seq<Memory>, m: Memory, t: string)
    ensures MembersOf(ms + [m], t) == MembersOf(ms, t) + (if m.memoryType == t then [m] else [])
  {
    if |ms| > 0 {
      assert (ms + [m])[1..] == ms[1..] + [m];
      MembersOfAppend(ms[1..], m, t);
    }
  }

  lemma MembersOfNone(ms: seq<Memory>, t: string)
    requires forall j :: 0 <= j < |ms| ==> ms[j].memoryType != t
    ensures MembersOf(ms, t) == []
  {
  }

  /** Position of the group of type `t`. */
  function FindGroup(gs: seq<Group>, t: string): (o: Option<nat>)
    ensures o.Some? ==> o.value < |gs| && gs[o.value].memoryType == t
    ensures o.None? ==> t !in GroupTypes(gs)
  {
    if |gs| == 0 then None
    else if gs[0].memoryType == t then Some(0)
    else match FindGroup(gs[1..], t)
      case None => None
      case Some(k) => Some(k + 1)
  }

  lemma AddToGroupsShape(gs: seq<Group>, m: Memory)
    ensures FindGroup(gs, m.memoryType).None? ==> AddToGroups(gs, m) == gs + [Group(m.memoryType, [m])]
    ensures FindGroup(gs, m.memoryType).Some? ==>
              var k := FindGroup(gs, m.memoryType).value;
              AddToGroups(gs, m) == gs[k := gs[k].(members := gs[k].members + [m])]
  {
    if |gs| > 0 && gs[0].memoryType != m.memoryType {
      AddToGroupsShape(gs[1..], m);
    }
  }

  /** `gs` groups `ms` by type: one group per type present, each with exactly
      the records of that type in their original order. */
  predicate GroupsOf(gs: seq<Group>, ms: seq<Memory>) {
    && Distinct(GroupTypes(gs))
    && (forall i :: 0 <= i < |gs| ==> gs[i].members == MembersOf(ms, gs[i].memoryType) && |gs[i].members| > 0)
    && (forall j :: 0 <= j < |ms| ==> ms[j].memoryType in GroupTypes(gs))
  }

  /** The one pass builds the grouping of the records by type. */
  lemma {:induction false} GroupByTypePartitions(ms: seq<Memory>)
    ensures GroupsOf(GroupByType(ms), ms)
  {
    if |ms| > 0 {
      var init := ms[..|ms| - 1];
      var m := ms[|ms| - 1];
      assert ms == init + [m];
      GroupByTypePartitions(init);
      assert GroupByType(ms) == AddToGroups(GroupByType(init), m);
      AddToGroupsKeeps(GroupByType(init), init, m);
    }
  }

  /** Adding one record to a grouping gives the grouping of the longer list. */
  lemma AddToGroupsKeeps(gs: seq<Group>, init: seq<Memory>, m: Memory)
    requires GroupsOf(gs, init)
    ensures GroupsOf(AddToGroups(gs, m), init + [m])
  {
    AddToGroupsShape(gs, m);
    forall t ensures MembersOf(init + [m], t) == MembersOf(init, t) + (if m.memoryType == t then [m] else []) {
      MembersOfAppend(init, m, t);
    }
    if FindGroup(gs, m.memoryType).None? {
      AddNewGroup(gs, init, m);
    } else {
      AddToExistingGroup(gs, init, m, FindGroup(gs, m.memoryType).value);
    }
  }

  lemma AddNewGroup(gs: seq<Group>, init: seq<Memory>, m: Memory)
    requires GroupsOf(gs, init) && m.memoryType !in GroupTypes(gs)
    requires forall t :: MembersOf(init + [m], t) == MembersOf(init, t) + (if m.memoryType == t then [m] else [])
    ensures GroupsOf(gs + [Group(m.memoryType, [m])], init + [m])
  {
    var ms := init + [m];
    var r := gs + [Group(m.memoryType, [m])];
    assert forall j :: 0 <= j < |init| ==> init[j].memoryType != m.memoryType;
    MembersOfNone(init, m.memoryType);
    assert GroupTypes(r) == GroupTypes(gs) + [m.memoryType];
    forall j | 0 <= j < |ms| ensures ms[j].memoryType in GroupTypes(r) {
      if j < |init| { assert ms[j] == init[j]; }
    }
  }

  lemma AddToExistingGroup(gs: seq<Group>, init: seq<Memory>, m: Memory, k: nat)
    requires GroupsOf(gs, init) && k < |gs| && gs[k].memoryType == m.memoryType
    requires forall t :: MembersOf(init + [m], t) == MembersOf(init, t) + (if m.memoryType == t then [m] else [])
    ensures GroupsOf(gs[k := gs[k].(members := gs[k].members + [m])], init + [m])
  {
    var ms := init + [m];
    var r := gs[k := gs[k].(members := gs[k].members + [m])];
    assert GroupTypes(r) == GroupTypes(gs);
    forall i | 0 <= i < |r| && i != k ensures r[i].memoryType != m.memoryType {
      assert GroupTypes(gs)[i] != GroupTypes(gs)[k];
    }
    forall j | 0 <= j < |ms| ensures ms[j].memoryType in GroupTypes(r) {
      if j < |init| { assert ms[j] == init[j]; }
    }
  }

  const TypeLabels: map<string, string> := map[
    "personal_info" := "Personal Information",
    "preference" := "Preferences",
    "life_event" := "Life Events",
    "emotional_state" := "Emotional Patterns",
    "interest" := "Interests",
    "relationship" := "Relationships",
    "goal" := "Goals",
    "important_fact" := "Important Facts"]

  function ReplaceChar(s: string, from: char, to: char): (r: string)
    ensures |r| == |s|
    ensures forall i :: 0 <= i < |s| ==> r[i] == (if s[i] == from then to else s[i])
  {
    seq(|s|, i requires 0 <= i < |s| => if s[i] == from then to else s[i])
  }

  /** The heading of a type's section: its fixed label, or the type name with
      underscores turned into spaces and title-cased. */
  function Label(memoryType: string): string {
    if memoryType in TypeLabels then TypeLabels[memoryType] else Title(ReplaceChar(memoryType, '_', ' '))
  }

  /** One summary line: `- key: value` when both are non-empty, else `- content`. */
  function ItemLine(m: Memory): string {
    if Truthy(m.key) && Truthy(m.value) then "- " + m.key.value + ": " + m.value.value else "- " + m.content
  }

  function ItemLines(ms: seq<Memory>): (r: seq<string>)
    ensures |r| == |ms|
    ensures forall i :: 0 <= i < |ms| ==> r[i] == ItemLine(ms[i])
  {
    seq(|ms|, i requires 0 <= i < |ms| => ItemLine(ms[i]))
  }

  /** The section of one group: its heading and at most five item lines. */
  function Section(g: Group): string {
    Label(g.memoryType) + ":\n" + Join(ItemLines(PyPrefix(g.members, 5)), "\n")
  }

  /** The sections of the groups whose item list is not empty. */
  function Sections(gs: seq<Group>): seq<string> {
    if |gs| == 0 then []
    else if |PyPrefix(gs[0].members, 5)| > 0 then [Section(gs[0])] + Sections(gs[1..])
    else Sections(gs[1..])
  }

  /** The text `get_context_summary` builds from the selected records. */
  function Summarize(ms: seq<Memory>): string {
    if |ms| == 0 then NoInformation
    else
      var parts := Sections(GroupByType(ms));
      if |parts| > 0 then Join(parts, "\n\n") else NoInformation
  }

  /** The type of each record, in record order, repeats included. */
  function TypeSeq(ms: seq<Memory>): (r: seq<string>)
    ensures |r| == |ms|
    ensures forall j :: 0 <= j < |ms| ==> r[j] == ms[j].memoryType
  {
    seq(|ms|, j requires 0 <= j < |ms| => ms[j].memoryType)
  }

  /** The groups come in the order in which their types first appear among
      the records (the insertion order of the `by_type` dictionary). */
  lemma {:induction false} GroupByTypeFirstSeen(ms: seq<Memory>)
    ensures var gs := GroupByType(ms);
            && (forall k :: 0 <= k < |gs| ==> gs[k].memoryType in TypeSeq(ms))
            && forall a, b :: 0 <= a < b < |gs| ==>
                 IndexOf(TypeSeq(ms), gs[a].memoryType) < IndexOf(TypeSeq(ms), gs[b].memoryType)
  {
    if |ms| > 0 {
      var init := ms[..|ms| - 1];
      var m := ms[|ms| - 1];
      assert ms == init + [m];
      GroupByTypeFirstSeen(init);
      GroupByTypePartitions(init);
      assert GroupByType(ms) == AddToGroups(GroupByType(init), m);
      var us := TypeSeq(init) + [m.memoryType];
      assert TypeSeq(ms) == us;
      FirstSeenStep(GroupByType(init), TypeSeq(init), m);
      var gs := GroupByType(ms);
      forall a, b | 0 <= a < b < |gs| ensures IndexOf(TypeSeq(ms), gs[a].memoryType) < IndexOf(TypeSeq(ms), gs[b].memoryType) {
        assert IndexOf(us, gs[a].memoryType) < IndexOf(us, gs[b].memoryType);
      }
    }
  }

  /** The step of `GroupByTypeFirstSeen`, over the groups and types so far. */
  lemma FirstSeenStep(gs: seq<Group>, ts: seq<string>, m: Memory)
    requires forall t :: t in ts ==> t in GroupTypes(gs)
    requires forall k :: 0 <= k < |gs| ==> gs[k].memoryType in ts
    requires forall a, b :: 0 <= a < b < |gs| ==> IndexOf(ts, gs[a].memoryType) < IndexOf(ts, gs[b].memoryType)
    ensures var r := AddToGroups(gs, m);
            && (forall k :: 0 <= k < |r| ==> r[k].memoryType in ts + [m.memoryType])
            && forall a, b :: 0 <= a < b < |r| ==>
                 IndexOf(ts + [m.memoryType], r[a].memoryType) < IndexOf(ts + [m.memoryType], r[b].memoryType)
  {
    var us := ts + [m.memoryType];
    AddToGroupsShape(gs, m);
    forall k | 0 <= k < |gs| ensures gs[k].memoryType in us && IndexOf(us, gs[k].memoryType) == IndexOf(ts, gs[k].memoryType) {
      IndexOfAppend(ts, m.memoryType, gs[k].memoryType);
    }
    if FindGroup(gs, m.memoryType).None? {
      assert m.memoryType !in ts;
      IndexOfAppendNew(ts, m.memoryType);
      FirstSeenNewGroup(gs, us, Group(m.memoryType, [m]));
    } else {
      var k := FindGroup(gs, m.memoryType).value;
      FirstSeenSameTypes(gs, gs[k := gs[k].(members := gs[k].members + [m])], us);
    }
  }

  /** A group appended after the others, whose type appears later than
      theirs, keeps the order. */
  lemma FirstSeenNewGroup(gs: seq<Group>, us: seq<string>, g: Group)
    requires forall k :: 0 <= k < |gs| ==> gs[k].memoryType in us
    requires forall a, b :: 0 <= a < b < |gs| ==> IndexOf(us, gs[a].memoryType) < IndexOf(us, gs[b].memoryType)
    requires g.memoryType in us
    requires forall k :: 0 <= k < |gs| ==> IndexOf(us, gs[k].memoryType) < IndexOf(us, g.memoryType)
    ensures forall k :: 0 <= k < |gs + [g]| ==> (gs + [g])[k].memoryType in us
    ensures forall a, b :: 0 <= a < b < |gs + [g]| ==>
              IndexOf(us, (gs + [g])[a].memoryType) < IndexOf(us, (gs + [g])[b].memoryType)
  {
  }

  /** Groups with the same types in the same places keep the order. */
  lemma FirstSeenSameTypes(gs: seq<Group>, r: seq<Group>, us: seq<string>)
    requires |r| == |gs| && forall k :: 0 <= k < |gs| ==> r[k].memoryType == gs[k].memoryType
    requires forall k :: 0 <= k < |gs| ==> gs[k].memoryType in us
    requires forall a, b :: 0 <= a < b < |gs| ==> IndexOf(us, gs[a].memoryType) < IndexOf(us, gs[b].memoryType)
    ensures forall k :: 0 <= k < |r| ==> r[k].memoryType in us
    ensures forall a, b :: 0 <= a < b < |r| ==> IndexOf(us, r[a].memoryType) < IndexOf(us, r[b].memoryType)
  {
  }

  /** Every group with a record has a section, so the sections are the
      groups' sections one for one. */
  lemma {:induction false} SectionsAll(gs: seq<Group>)
    requires forall k :: 0 <= k < |gs| ==> |gs[k].members| > 0
    ensures Sections(gs) == seq(|gs|, k requires 0 <= k < |gs| => Section(gs[k]))
  {
    if |gs| > 0 {
      SectionsAll(gs[1..]);
      assert |PyPrefix(gs[0].members, 5)| > 0;
    }
  }

  /** The whole summary: for each type present, in order of first appearance,
      its heading and the item lines of its first five records, the sections
      joined by a blank line; the no-information sentence for no records.
      The type list is pinned down independently of the grouping: no
      repeats, every record's type, and first-appearance order. */
  lemma SummarizeLayout(ms: seq<Memory>)
    ensures var ts := GroupTypes(GroupByType(ms));
            && Distinct(ts)
            && (forall j :: 0 <= j < |ms| ==> ms[j].memoryType in ts)
            && (forall k :: 0 <= k < |ts| ==> ts[k] in TypeSeq(ms))
            && (forall a, b :: 0 <= a < b < |ts| ==> IndexOf(TypeSeq(ms), ts[a]) < IndexOf(TypeSeq(ms), ts[b]))
            && Summarize(ms) == if |ms| == 0 then NoInformation
                                else Join(seq(|ts|, k requires 0 <= k < |ts| =>
                                                Label(ts[k]) + ":\n" + Join(ItemLines(PyPrefix(MembersOf(ms, ts[k]), 5)), "\n")),
                                          "\n\n")
  {
    GroupByTypePartitions(ms);
    GroupByTypeFirstSeen(ms);
    SummaryText(ms);
  }

  /** The text part of `SummarizeLayout`, for the grouping's type list. */
  lemma SummaryText(ms: seq<Memory>)
    ensures var ts := GroupTypes(GroupByType(ms));
            Summarize(ms) == if |ms| == 0 then NoInformation
                             else Join(seq(|ts|, k requires 0 <= k < |ts| =>
                                             Label(ts[k]) + ":\n" + Join(ItemLines(PyPrefix(MembersOf(ms, ts[k]), 5)), "\n")),
                                       "\n\n")
  {
    if |ms| > 0 {
      var gs := GroupByType(ms);
      var ts := GroupTypes(gs);
      GroupByTypePartitions(ms);
      GroupsNonEmpty(ms);
      SectionsAll(gs);
      assert Sections(gs) == seq(|ts|, k requires 0 <= k < |ts| =>
                                   Label(ts[k]) + ":\n" + Join(ItemLines(PyPrefix(MembersOf(ms, ts[k]), 5)), "\n"));
    }
  }

  /** `get_context_summary`: the summary of the context selection of 15; the
      no-information sentence exactly when the store is empty. */
  function GetContextSummary(s: Store, now: nat): (r: (Store, string))
    requires Valid(s)
    ensures Valid(r.0)
    ensures r.1 == NoInformation <==> |s.entries| == 0
  {
    var c := GetMemoriesForContext(s, 15, now);
    SummarizeNoInformation(Mems(c.1));
    (c.0, Summarize(Mems(c.1)))
  }

  lemma JoinHasNewline(parts: seq<string>, sep: string)
    requires |parts| > 0 && '\n' in parts[0]
    ensures '\n' in Join(parts, sep)
  {
    var j := Join(parts, sep);
    if |parts| > 1 {
      assert j == parts[0] + sep + Join(parts[1..], sep);
      var k :| 0 <= k < |parts[0]| && parts[0][k] == '\n';
      assert j[k] == '\n';
    }
  }

  lemma GroupsNonEmpty(ms: seq<Memory>)
    requires |ms| > 0
    ensures |GroupByType(ms)| > 0 && |GroupByType(ms)[0].members| > 0
  {
    GroupByTypePartitions(ms);
    assert ms[0].memoryType in GroupTypes(GroupByType(ms));
  }

  lemma SectionsStartWithHeading(gs: seq<Group>)
    requires |gs| > 0 && |gs[0].members| > 0
    ensures |Sections(gs)| > 0 && '\n' in Sections(gs)[0]
  {
    var head := Section(gs[0]);
    assert head[|Label(gs[0].memoryType)| + 1] == '\n';
  }

  lemma NoInformationOneLine()
    ensures '\n' !in NoInformation
  {
  }

  /** The no-information sentence comes back exactly when nothing is selected. */
  lemma SummarizeNoInformation(ms: seq<Memory>)
    ensures Summarize(ms) == NoInformation <==> |ms| == 0
  {
    if |ms| > 0 {
      GroupsNonEmpty(ms);
      SectionsStartWithHeading(GroupByType(ms));
      JoinHasNewline(Sections(GroupByType(ms)), "\n\n");
      NoInformationOneLine();
    }
  }

  /** One keyed personal fact is summarised as that fact under the
      "Personal Information" heading. */
  lemma SummaryOfOneFact(m: Memory)
    requires m.memoryType == "personal_info" && m.key == Some("name") && m.value == Some("Alice")
    ensures Summarize([m]) == "Personal Information:\n- name: Alice"
  {
    assert [m][..0] == [];
    assert GroupByType([m]) == AddToGroups(GroupByType([]), m);
    var gs := GroupByType([m]);
    assert gs == [Group("personal_info", [m])];
    assert PyPrefix([m], 5) == [m];
    assert ItemLine(m) == "- name: Alice";
    assert ItemLines([m]) == ["- name: Alice"];
    assert Label("personal_info") == "Personal Information";
    assert Section(gs[0]) == "Personal Information:\n- name: Alice";
    assert Sections(gs) == [Section(gs[0])];
  }

  // ---------------------------------------------------------------------------
  // get_stats
  // ---------------------------------------------------------------------------

  datatype Stats = Stats(
    totalMemories: nat,
    byType: map<string, nat>,
    importantCount: nat,
    companionBreakdown: map<string, nat>)

  /** `memory.companion_id or "unknown"`. */
  function CompanionKey(m: Memory): string {
    if m.companionId == "" then "unknown" else m.companionId
  }

  /** `_count_by_companion`: one counter per companion key, built in list order. */
  function CountByCompanion(es: seq<Entry>): map<string, nat> {
    if |es| == 0 then map[]
    else
      var counts := CountByCompanion(es[..|es| - 1]);
      var c := CompanionKey(es[|es| - 1].mem);
      counts[c := (if c in counts then counts[c] else 0) + 1]
  }

  /** The number of records filed under companion key `c`. */
  function CompanionCount(es: seq<Entry>, c: string): nat {
    if |es| == 0 then 0 else (if CompanionKey(es[0].mem) == c then 1 else 0) + CompanionCount(es[1..], c)
  }

  lemma CompanionCountAppend(es: seq<Entry>, e: Entry, c: string)
    ensures CompanionCount(es + [e], c) == CompanionCount(es, c) + (if CompanionKey(e.mem) == c then 1 else 0)
  {
    if |es| > 0 {
      assert (es + [e])[1..] == es[1..] + [e];
      CompanionCountAppend(es[1..], e, c);
    }
  }

  /** The counters name exactly the companion keys present, each with its
      number of records. */
  lemma {:induction false} CountByCompanionCounts(es: seq<Entry>, c: string)
    ensures c in CountByCompanion(es) <==> CompanionCount(es, c) > 0
    ensures c in CountByCompanion(es) ==> CountByCompanion(es)[c] == CompanionCount(es, c)
  {
    if |es| > 0 {
      var init := es[..|es| - 1];
      assert es == init + [es[|es| - 1]];
      CountByCompanionCounts(init, c);
      CompanionCountAppend(init, es[|es| - 1], c);
    }
  }

  lemma CompanionCountSame(a: seq<Entry>, b: seq<Entry>, c: string)
    requires |a| == |b|
    requires forall i :: 0 <= i < |a| ==> b[i].mem.companionId == a[i].mem.companionId
    ensures CompanionCount(a, c) == CompanionCount(b, c)
  {
    if |a| > 0 {
      CompanionCountSame(a[1..], b[1..], c);
    }
  }

  /** Touching changes no companion, so the per-companion counts read after
      the touch are those of the records before it. */
  lemma TouchedBreakdown(s: Store, rs: set<Ref>, now: nat)
    ensures forall c :: c in CountByCompanion(TouchRefs(s, rs, now).entries) <==> CompanionCount(s.entries, c) > 0
    ensures forall c :: c in CountByCompanion(TouchRefs(s, rs, now).entries) ==>
              CountByCompanion(TouchRefs(s, rs, now).entries)[c] == CompanionCount(s.entries, c)
  {
    var t := TouchRefs(s, rs, now);
    forall c ensures (c in CountByCompanion(t.entries) <==> CompanionCount(s.entries, c) > 0) &&
                     (c in CountByCompanion(t.entries) ==> CountByCompanion(t.entries)[c] == CompanionCount(s.entries, c)) {
      CountByCompanionCounts(t.entries, c);
      CompanionCountSame(s.entries, t.entries, c);
    }
  }

  const TypeNames: set<string> := set t | t in AllTypes :: TypeName(t)

  /** `get_stats`: the number of records, the number per memory type (every
      type listed, zero included), the number of records of importance at
      least 3 (found by the touching query, so those records are touched) and
      the number per companion key. */
  function GetStats(s: Store, now: nat): (r: (Store, Stats))
    requires Valid(s)
    ensures Valid(r.0)
    ensures r.0 == TouchRefs(s, RefSet(AtLeastIn(s.entries, 3)), now)
    ensures r.1.totalMemories == |s.entries|
    ensures r.1.byType.Keys == TypeNames
    ensures forall t :: t in r.1.byType ==> r.1.byType[t] == |OfTypeIn(s.entries, t)|
    ensures r.1.importantCount == |AtLeastIn(s.entries, 3)|
    ensures forall c :: c in r.1.companionBreakdown <==> CompanionCount(s.entries, c) > 0
    ensures forall c :: c in r.1.companionBreakdown ==> r.1.companionBreakdown[c] == CompanionCount(s.entries, c)
  {
    var byType := map t | t in TypeNames :: |OfTypeIn(s.entries, t)|;
    var imp := GetImportantMemories(s, 3, now);
    assert |imp.1| == |AtLeastIn(s.entries, 3)| by {
      assert |multiset(imp.1)| == |multiset(TouchEntries(AtLeastIn(s.entries, 3), now))|;
    }
    var breakdown := CountByCompanion(imp.0.entries);
    TouchedBreakdown(s, RefSet(AtLeastIn(s.entries, 3)), now);
    (imp.0, Stats(|s.entries|, byType, |imp.1|, breakdown))
  }

  // ---------------------------------------------------------------------------
  // Queries that do not touch
  // ---------------------------------------------------------------------------

  /** `get_all_memories`: every record, most recently accessed first. */
  function GetAllMemories(s: Store): (r: seq<Entry>)
    ensures multiset(r) == multiset(s.entries)
    ensures SortedDesc(r, LastAccessed)
  {
    SortDesc(s.entries, LastAccessed)
  }

  /** The case-insensitive substring test `search_memories` applies with an
      already lower-cased query. */
  predicate Matches(m: Memory, queryLower: string) {
    || Contains(Lower(m.content), queryLower)
    || (Truthy(m.key) && Contains(Lower(m.key.value), queryLower))
    || (Truthy(m.value) && Contains(Lower(m.value.value), queryLower))
  }

  /** `search_memories`: the records, in store order, whose content, key or
      value contains the query, ignoring case. */
  function SearchMemories(s: Store, query: string): (r: seq<Entry>)
    ensures forall i :: 0 <= i < |s.entries| ==> (s.entries[i] in r <==> Matches(s.entries[i].mem, Lower(query)))
    ensures forall i :: 0 <= i < |r| ==> r[i] in s.entries
    ensures Distinct(Refs(s.entries)) ==> Distinct(Refs(r))
    ensures Distinct(Refs(s.entries)) ==>
              forall i, j :: 0 <= i < j < |r| ==> IndexOf(s.entries, r[i]) < IndexOf(s.entries, r[j])
  {
    FilterInStoreOrder(s, (e: Entry) => Matches(e.mem, Lower(query)));
    Filter(s.entries, (e: Entry) => Matches(e.mem, Lower(query)))
  }

  /** The search does not depend on the case of the query. */
  lemma SearchIgnoresQueryCase(s: Store, query: string)
    ensures SearchMemories(s, Lower(query)) == SearchMemories(s, query)
  {
    LowerIdempotent(query);
  }

  lemma ContainsSelf(s: string)
    ensures Contains(s, s)
  {
    assert s[0..] == s;
  }

  lemma ContainsEmpty(s: string)
    ensures Contains(s, "")
  {
    assert StartsWith(s[0..], "");
  }

  /** The empty query finds every record, and a record's own key finds it. */
  lemma SearchFinds(s: Store, i: nat)
    requires i < |s.entries|
    ensures s.entries[i] in SearchMemories(s, "")
    ensures Truthy(s.entries[i].mem.key) ==> s.entries[i] in SearchMemories(s, s.entries[i].mem.key.value)
    ensures s.entries[i] in SearchMemories(s, s.entries[i].mem.content)
  {
    var m := s.entries[i].mem;
    ContainsEmpty(Lower(m.content));
    assert Lower("") == "";
    ContainsSelf(Lower(m.content));
    if Truthy(m.key) {
      ContainsSelf(Lower(m.key.value));
    }
  }

  predicate IsShared(e: Entry) { e.mem.isShared }

  predicate SpecificTo(companionId: string, e: Entry) { e.mem.companionId == companionId && !e.mem.isShared }

  /** Records with distinct handles are distinct entries. */
  lemma RefsDistinctEntries(es: seq<Entry>)
    requires Distinct(Refs(es))
    ensures Distinct(es)
  {
    forall i, j | 0 <= i < j < |es| ensures es[i] != es[j] {
      assert Refs(es)[i] != Refs(es)[j];
    }
  }

  /** A filter of a store's records lists each record once, in store order. */
  lemma FilterInStoreOrder(s: Store, p: Entry -> bool)
    ensures Distinct(Refs(s.entries)) ==> Distinct(Refs(Filter(s.entries, p)))
    ensures Distinct(Refs(s.entries)) ==> forall i, j :: 0 <= i < j < |Filter(s.entries, p)| ==>
              IndexOf(s.entries, Filter(s.entries, p)[i]) < IndexOf(s.entries, Filter(s.entries, p)[j])
  {
    if Distinct(Refs(s.entries)) {
      FilterRefsDistinct(s.entries, p);
      RefsDistinctEntries(s.entries);
      FilterKeepsOrder(s.entries, p);
    }
  }

  /** `get_shared_memories`: the shared records, each once, in store order. */
  function GetSharedMemories(s: Store): (r: seq<Entry>)
    ensures forall i :: 0 <= i < |s.entries| ==> (s.entries[i] in r <==> s.entries[i].mem.isShared)
    ensures forall i :: 0 <= i < |r| ==> r[i] in s.entries && r[i].mem.isShared
    ensures Distinct(Refs(s.entries)) ==> Distinct(Refs(r))
    ensures Distinct(Refs(s.entries)) ==>
              forall i, j :: 0 <= i < j < |r| ==> IndexOf(s.entries, r[i]) < IndexOf(s.entries, r[j])
  {
    FilterInStoreOrder(s, IsShared);
    Filter(s.entries, IsShared)
  }

  /** `get_companion_specific_memories`: the companion's own unshared
      records, each once, in store order. */
  function GetCompanionSpecificMemories(s: Store, companionId: string): (r: seq<Entry>)
    ensures forall i :: 0 <= i < |s.entries| ==>
              (s.entries[i] in r <==> s.entries[i].mem.companionId == companionId && !s.entries[i].mem.isShared)
    ensures forall i :: 0 <= i < |r| ==> r[i] in s.entries && !r[i].mem.isShared && r[i].mem.companionId == companionId
    ensures Distinct(Refs(s.entries)) ==> Distinct(Refs(r))
    ensures Distinct(Refs(s.entries)) ==>
              forall i, j :: 0 <= i < j < |r| ==> IndexOf(s.entries, r[i]) < IndexOf(s.entries, r[j])
  {
    var p := (e: Entry) => SpecificTo(companionId, e);
    FilterInStoreOrder(s, p);
    Filter(s.entries, p)
  }

  /** `get_memories_for_companion`: the shared records, then the companion's
      own unshared records; each part keeps store order and no record is
      listed twice. */
  function GetMemoriesForCompanion(s: Store, companionId: string): (r: seq<Entry>)
    ensures forall i :: 0 <= i < |s.entries| ==>
              (s.entries[i] in r <==> s.entries[i].mem.isShared || s.entries[i].mem.companionId == companionId)
    ensures forall i :: 0 <= i < |r| ==>
              r[i] in s.entries && (r[i].mem.isShared || r[i].mem.companionId == companionId)
    ensures forall i, j :: 0 <= i < j < |r| && r[i].mem.isShared != r[j].mem.isShared ==> r[i].mem.isShared
    ensures Distinct(Refs(s.entries)) ==> Distinct(Refs(r))
    ensures Distinct(Refs(s.entries)) ==>
              forall i, j :: 0 <= i < j < |r| && r[i].mem.isShared == r[j].mem.isShared ==>
                r[i] in s.entries && r[j] in s.entries && IndexOf(s.entries, r[i]) < IndexOf(s.entries, r[j])
  {
    var shared := GetSharedMemories(s);
    var specific := GetCompanionSpecificMemories(s, companionId);
    assert Distinct(Refs(s.entries)) ==> Distinct(Refs(shared + specific)) by {
      if Distinct(Refs(s.entries)) {
        DisjointPartsDistinct(s, shared, specific);
      }
    }
    shared + specific
  }

  /** Two duplicate-free lists of a store's records, one of shared records
      and one of unshared ones, concatenate without a repeated handle. */
  lemma DisjointPartsDistinct(s: Store, a: seq<Entry>, b: seq<Entry>)
    requires Distinct(Refs(s.entries)) && Distinct(Refs(a)) && Distinct(Refs(b))
    requires forall i :: 0 <= i < |a| ==> a[i] in s.entries && a[i].mem.isShared
    requires forall i :: 0 <= i < |b| ==> b[i] in s.entries && !b[i].mem.isShared
    ensures Distinct(Refs(a + b))
  {
    var rs := Refs(a + b);
    forall x, y | 0 <= x < y < |rs| ensures rs[x] != rs[y] {
      if y >= |a| && x < |a| {
        var e, f := (a + b)[x], (a + b)[y];
        assert e == a[x] && f == b[y - |a|];
        var k :| 0 <= k < |s.entries| && s.entries[k] == e;
        var l :| 0 <= l < |s.entries| && s.entries[l] == f;
        assert k != l;
        assert Refs(s.entries)[k] != Refs(s.entries)[l] || k == l;
      } else if x >= |a| {
        assert Refs(b)[x - |a|] != Refs(b)[y - |a|];
      } else {
        assert Refs(a)[x] != Refs(a)[y];
      }
    }
  }

  /** Two different companions see the same shared part and no common
      unshared record. */
  lemma CompanionsShareOnlyShared(s: Store, c1: string, c2: string, i: nat)
    requires c1 != c2 && i < |s.entries|
    requires s.entries[i] in GetMemoriesForCompanion(s, c1) && s.entries[i] in GetMemoriesForCompanion(s, c2)
    ensures s.entries[i].mem.isShared
  {
  }
}
