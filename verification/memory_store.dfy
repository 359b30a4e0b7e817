/** The memory record and the key-indexed store that owns it (memory.py):
    keyed upsert, lookup by key, delete, importance update and the key index.

    Python keeps a list of `Memory` objects and a dict from key to one of those
    objects. Object identity is modelled by a store-assigned handle (`Ref`):
    record ids come from files and need not be unique, and the key index points
    at one particular object. The clock is an explicit `now` (timestamps are
    naturals ordered like the ISO strings they stand for, `""` being 0) and new
    record ids come from a caller-supplied `mint` applied to the next handle. */
module MemoryStore {

  import opened Optional
  import opened Seqs
  import opened Text

  // ---------------------------------------------------------------------------
  // Memory types
  // ---------------------------------------------------------------------------

  datatype MemoryType =
    | PersonalInfo | Preference | LifeEvent | EmotionalState | Interest
    | Relationship | Goal | ImportantFact | ConversationTopic

  /** The enum member's string value. */
  function TypeName(t: MemoryType): string {
    match t
    case PersonalInfo => "personal_info"
    case Preference => "preference"
    case LifeEvent => "life_event"
    case EmotionalState => "emotional_state"
    case Interest => "interest"
    case Relationship => "relationship"
    case Goal => "goal"
    case ImportantFact => "important_fact"
    case ConversationTopic => "conversation_topic"
  }

  /** The members in declaration order (the order `for mt in MemoryType` visits). */
  const AllTypes: seq<MemoryType> :=
    [PersonalInfo, Preference, LifeEvent, EmotionalState, Interest,
     Relationship, Goal, ImportantFact, ConversationTopic]

  /** `MemoryType(s)`: the member whose value is `s`; `None` where Python raises
      `ValueError`. */
  function ParseType(s: string): (r: Option<MemoryType>)
    ensures r.Some? ==> TypeName(r.value) == s
    ensures r.None? ==> forall t: MemoryType :: TypeName(t) != s
  {
    if s == "personal_info" then Some(PersonalInfo)
    else if s == "preference" then Some(Preference)
    else if s == "life_event" then Some(LifeEvent)
    else if s == "emotional_state" then Some(EmotionalState)
    else if s == "interest" then Some(Interest)
    else if s == "relationship" then Some(Relationship)
    else if s == "goal" then Some(Goal)
    else if s == "important_fact" then Some(ImportantFact)
    else if s == "conversation_topic" then Some(ConversationTopic)
    else None
  }

  predicate IsMemoryType(s: string) {
    ParseType(s).Some?
  }

  // ---------------------------------------------------------------------------
  // Records
  // ---------------------------------------------------------------------------

  datatype Memory = Memory(
    id: string,
    memoryType: string,
    content: string,
    key: Option<string>,
    value: Option<string>,
    importance: int,
    createdAt: nat,
    lastAccessed: nat,
    accessCount: int,
    companionId: string,
    conversationId: Option<string>,
    isShared: bool)


  /** `Memory.touch`: refresh the access time and count one more access. */
  function Touch(m: Memory, now: nat): Memory {
    m.(lastAccessed := now, accessCount := m.accessCount + 1)
  }

  function Max(a: int, b: int): int {
    if a >= b then a else b
  }

  /** `max(1, min(5, v))`. */
  function Clamp(v: int): (r: int)
    ensures 1 <= r <= 5
    ensures 1 <= v <= 5 ==> r == v
    ensures v < 1 ==> r == 1
    ensures v > 5 ==> r == 5
  {
    if v < 1 then 1 else if v > 5 then 5 else v
  }

  // ---------------------------------------------------------------------------
  // The store
  // ---------------------------------------------------------------------------

  /** The identity of one `Memory` object inside the store. */
  type Ref = nat

  datatype Entry = Entry(ref: Ref, mem: Memory)

  datatype Store = Store(entries: seq<Entry>, index: map<string, Ref>, nextRef: Ref)

  /** A store with no records (what `load` leaves when there is no file). */
  function EmptyStore(nextRef: Ref): (s: Store)
    ensures Valid(s) && Canonical(s)
  {
    Store([], map[], nextRef)
  }

  function Refs(es: seq<Entry>): (r: seq<Ref>)
    ensures |r| == |es|
    ensures forall i :: 0 <= i < |es| ==> r[i] == es[i].ref
  {
    seq(|es|, i requires 0 <= i < |es| => es[i].ref)
  }

  function Mems(es: seq<Entry>): (r: seq<Memory>)
    ensures |r| == |es|
    ensures forall i :: 0 <= i < |es| ==> r[i] == es[i].mem
  {
    seq(|es|, i requires 0 <= i < |es| => es[i].mem)
  }

  function RefSet(es: seq<Entry>): set<Ref> {
    set i | 0 <= i < |es| :: es[i].ref
  }

  /** Position of the object `r` in the list. */
  function Find(es: seq<Entry>, r: Ref): (o: Option<nat>)
    ensures o.Some? ==> o.value < |es| && es[o.value].ref == r
    ensures o.Some? ==> forall j :: 0 <= j < o.value ==> es[j].ref != r
    ensures o.None? ==> forall j :: 0 <= j < |es| ==> es[j].ref != r
  {
    if |es| == 0 then None
    else if es[0].ref == r then Some(0)
    else match Find(es[1..], r)
      case None => None
      case Some(k) => Some(k + 1)
  }

  /** The current state of object `r`. */
  function Get(s: Store, r: Ref): Option<Memory> {
    match Find(s.entries, r)
    case None => None
    case Some(i) => Some(s.entries[i].mem)
  }

  /** Position of the first record with id `id` (the record a `for` loop that
      returns on the first match finds). */
  function FirstWithId(es: seq<Entry>, id: string): (o: Option<nat>)
    ensures o.Some? ==> o.value < |es| && es[o.value].mem.id == id
    ensures o.Some? ==> forall j :: 0 <= j < o.value ==> es[j].mem.id != id
    ensures o.None? ==> forall j :: 0 <= j < |es| ==> es[j].mem.id != id
  {
    if |es| == 0 then None
    else if es[0].mem.id == id then Some(0)
    else match FirstWithId(es[1..], id)
      case None => None
      case Some(k) => Some(k + 1)
  }

  /** Every index entry points at a live object holding that (non-empty) key. */
  predicate IndexSound(s: Store) {
    forall k :: k in s.index ==>
      k != "" && Find(s.entries, s.index[k]).Some? &&
      s.entries[Find(s.entries, s.index[k]).value].mem.key == Some(k)
  }

  /** The representation invariant every reachable store satisfies: objects
      are distinct and older than the handle counter, and the index is sound. */
  predicate Valid(s: Store) {
    && (forall i :: 0 <= i < |s.entries| ==> s.entries[i].ref < s.nextRef)
    && Distinct(Refs(s.entries))
    && IndexSound(s)
  }

  /** No two records hold the same non-empty key. */
  predicate KeysUnique(es: seq<Entry>) {
    forall i, j :: 0 <= i < j < |es| && Truthy(es[i].mem.key) ==> es[j].mem.key != es[i].mem.key
  }

  /** Every keyed record is the one its key is indexed under. */
  predicate IndexComplete(es: seq<Entry>, index: map<string, Ref>) {
    forall i :: 0 <= i < |es| && Truthy(es[i].mem.key) ==>
      es[i].mem.key.value in index && index[es[i].mem.key.value] == es[i].ref
  }

  /** The situation the design aims for: at most one record per key, and the
      index names exactly the keyed records. */
  predicate Canonical(s: Store) {
    Valid(s) && KeysUnique(s.entries) && IndexComplete(s.entries, s.index)
  }

  /** `s'` differs from `s` at most in the object `r`. */
  predicate SameExcept(s: Store, s': Store, r: Ref) {
    && |s'.entries| == |s.entries|
    && s'.index == s.index && s'.nextRef == s.nextRef
    && forall i :: 0 <= i < |s.entries| ==>
         s'.entries[i].ref == s.entries[i].ref &&
         (s.entries[i].ref != r ==> s'.entries[i] == s.entries[i])
  }

  /** A change confined to one object leaves every other object's state. */
  lemma GetSameExcept(s: Store, t: Store, r: Ref, other: Ref)
    requires SameExcept(s, t, r) && other != r
    ensures Get(t, other) == Get(s, other)
  {
    assert Refs(t.entries) == Refs(s.entries);
    FindSameRefs(s.entries, t.entries, other);
  }

  /** Replace the state of the object at position `i`. */
  function SetAt(s: Store, i: nat, m: Memory): (t: Store)
    requires i < |s.entries|
    ensures SameExcept(s, t, s.entries[i].ref)
    ensures |t.entries| == |s.entries| && t.entries[i] == Entry(s.entries[i].ref, m)
  {
    s.(entries := s.entries[i := Entry(s.entries[i].ref, m)])
  }

  lemma SetAtValid(s: Store, i: nat, m: Memory)
    requires Valid(s) && i < |s.entries|
    requires m.key == s.entries[i].mem.key
    ensures Valid(SetAt(s, i, m))
    ensures SameExcept(s, SetAt(s, i, m), s.entries[i].ref)
    ensures Canonical(s) ==> Canonical(SetAt(s, i, m))
  {
    SetAtFinds(s, i, m);
    if Canonical(s) {
      SetAtCanonicalParts(s.entries, s.index, i, m);
    }
  }

  /** Replacing a state leaves every handle where it was. */
  lemma SetAtFinds(s: Store, i: nat, m: Memory)
    requires i < |s.entries|
    ensures Refs(SetAt(s, i, m).entries) == Refs(s.entries)
    ensures forall r :: Find(SetAt(s, i, m).entries, r) == Find(s.entries, r)
  {
    var t := SetAt(s, i, m);
    assert Refs(t.entries) == Refs(s.entries);
    forall r ensures Find(t.entries, r) == Find(s.entries, r) {
      FindSameRefs(s.entries, t.entries, r);
    }
  }

  /** Replacing a state without changing its key keeps one record per key. */
  lemma SetAtCanonicalParts(es: seq<Entry>, index: map<string, Ref>, i: nat, m: Memory)
    requires i < |es| && m.key == es[i].mem.key
    requires KeysUnique(es) && IndexComplete(es, index)
    ensures KeysUnique(es[i := Entry(es[i].ref, m)]) && IndexComplete(es[i := Entry(es[i].ref, m)], index)
  {
  }

  lemma FindSameRefs(a: seq<Entry>, b: seq<Entry>, r: Ref)
    requires Refs(a) == Refs(b)
    ensures Find(a, r) == Find(b, r)
  {
    if |a| > 0 {
      assert Refs(a[1..]) == Refs(b[1..]) by {
        assert |Refs(a)| == |Refs(b)|;
        forall j | 0 <= j < |a| - 1 ensures a[1..][j].ref == b[1..][j].ref {
          assert Refs(a)[j + 1] == Refs(b)[j + 1];
        }
      }
      assert a[0].ref == Refs(a)[0] == Refs(b)[0] == b[0].ref;
      FindSameRefs(a[1..], b[1..], r);
    }
  }

  // ---------------------------------------------------------------------------
  // Touching objects
  // ---------------------------------------------------------------------------

  /** Touch every object in `rs` once (the `for m in memories: m.touch()` loops,
      whose lists never hold an object twice). */
  function TouchRefs(s: Store, rs: set<Ref>, now: nat): (t: Store)
    ensures |t.entries| == |s.entries| && t.index == s.index && t.nextRef == s.nextRef
    ensures Refs(t.entries) == Refs(s.entries)
    ensures forall i :: 0 <= i < |s.entries| ==>
              t.entries[i] == (if s.entries[i].ref in rs then Entry(s.entries[i].ref, Touch(s.entries[i].mem, now))
                               else s.entries[i])
  {
    var es := seq(|s.entries|, i requires 0 <= i < |s.entries| =>
                if s.entries[i].ref in rs then Entry(s.entries[i].ref, Touch(s.entries[i].mem, now)) else s.entries[i]);
    Store(es, s.index, s.nextRef)
  }

  /** Touching keeps the representation invariant and the one-record-per-key shape. */
  lemma TouchRefsValid(s: Store, rs: set<Ref>, now: nat)
    requires Valid(s)
    ensures Valid(TouchRefs(s, rs, now))
    ensures Canonical(s) ==> Canonical(TouchRefs(s, rs, now))
  {
    var t := TouchRefs(s, rs, now);
    forall r ensures Find(t.entries, r) == Find(s.entries, r) {
      FindSameRefs(s.entries, t.entries, r);
    }
  }

  /** After touching, object `r` reads as touched exactly when it was in `rs`. */
  lemma GetTouchRefs(s: Store, rs: set<Ref>, now: nat, r: Ref)
    ensures Get(TouchRefs(s, rs, now), r) ==
            (if r in rs && Get(s, r).Some? then Some(Touch(Get(s, r).value, now)) else Get(s, r))
  {
    FindSameRefs(s.entries, TouchRefs(s, rs, now).entries, r);
  }

  // ---------------------------------------------------------------------------
  // add_memory
  // ---------------------------------------------------------------------------

  /** The record `add_memory` builds for a new entry. */
  function NewMemory(id: string, memoryType: string, content: string, key: Option<string>,
                     value: Option<string>, importance: int, companionId: string,
                     isShared: bool, now: nat): Memory
  {
    Memory(id, memoryType, content, key, value, importance, now, now, 0, companionId, None, isShared)
  }

  /** The upsert applied to an existing record with the same key. */
  function Merged(m: Memory, content: string, value: Option<string>, importance: int): Memory {
    m.(value := value, content := content, importance := Max(m.importance, importance))
  }

  /** `add_memory`: returns the store after the call and the object returned.
      A non-empty key that is already indexed updates that record in place
      (value and content replaced, importance raised to the larger of the two,
      access time refreshed) and returns it; otherwise a fresh record is
      appended and indexed under its key if it has one. The importance is
      stored as given. */
  function AddMemory(s: Store, memoryType: string, content: string, key: Option<string>,
                     value: Option<string>, importance: int, companionId: string, isShared: bool,
                     mint: nat -> string, now: nat): (r: (Store, Ref))
    requires Valid(s)
    ensures Valid(r.0)
    ensures Truthy(key) && key.value in s.index ==>
              && r.1 == s.index[key.value]
              && SameExcept(s, r.0, r.1)
              && Get(s, r.1).Some?
              && Get(r.0, r.1) == Some(Merged(Get(s, r.1).value, content, value, importance).(lastAccessed := now))
    ensures !(Truthy(key) && key.value in s.index) ==>
              && r.1 == s.nextRef && r.1 !in Refs(s.entries)
              && r.0.entries == s.entries + [Entry(r.1, NewMemory(mint(s.nextRef), memoryType, content, key, value,
                                                                  importance, companionId, isShared, now))]
              && r.0.index == (if Truthy(key) then s.index[key.value := r.1] else s.index)
              && r.0.nextRef == s.nextRef + 1
  {
    if Truthy(key) && key.value in s.index then
      var ref := s.index[key.value];
      var i := Find(s.entries, ref).value;
      var existing := s.entries[i].mem;
      var t := SetAt(s, i, Merged(existing, content, value, importance).(lastAccessed := now));
      SetAtValid(s, i, Merged(existing, content, value, importance).(lastAccessed := now));
      assert Find(t.entries, ref) == Find(s.entries, ref) by { FindSameRefs(s.entries, t.entries, ref); }
      (t, ref)
    else
      var m := NewMemory(mint(s.nextRef), memoryType, content, key, value, importance, companionId, isShared, now);
      var t := Store(s.entries + [Entry(s.nextRef, m)], if Truthy(key) then s.index[key.value := s.nextRef] else s.index,
                     s.nextRef + 1);
      AppendValid(s, m, t);
      (t, s.nextRef)
  }

  lemma FindAppend(es: seq<Entry>, e: Entry, r: Ref)
    ensures Find(es + [e], r) == (if Find(es, r).Some? then Find(es, r) else if e.ref == r then Some(|es|) else None)
  {
    if |es| > 0 {
      assert (es + [e])[1..] == es[1..] + [e];
      FindAppend(es[1..], e, r);
    }
  }

  /** Appending a fresh object keeps the store valid. */
  lemma AppendValid(s: Store, m: Memory, t: Store)
    requires Valid(s)
    requires t.entries == s.entries + [Entry(s.nextRef, m)] && t.nextRef == s.nextRef + 1
    requires t.index == (if Truthy(m.key) then s.index[m.key.value := s.nextRef] else s.index)
    ensures Valid(t)
  {
    forall r ensures Find(t.entries, r) == (if Find(s.entries, r).Some? then Find(s.entries, r)
                                            else if r == s.nextRef then Some(|s.entries|) else None) {
      FindAppend(s.entries, Entry(s.nextRef, m), r);
    }
    assert Refs(t.entries) == Refs(s.entries) + [s.nextRef];
  }

  /** The value `add_memory` hands back. */
  function Returned(r: (Store, Ref)): Option<Memory> {
    Get(r.0, r.1)
  }

  /** Appending a record whose key (if any) is not indexed keeps one record per key. */
  lemma AppendCanonicalParts(es: seq<Entry>, index: map<string, Ref>, e: Entry)
    requires KeysUnique(es) && IndexComplete(es, index)
    requires Truthy(e.mem.key) ==> e.mem.key.value !in index
    ensures KeysUnique(es + [e])
    ensures IndexComplete(es + [e], if Truthy(e.mem.key) then index[e.mem.key.value := e.ref] else index)
  {
    var t := es + [e];
    forall i, j | 0 <= i < j < |t| && Truthy(t[i].mem.key)
      ensures t[j].mem.key != t[i].mem.key
    {
      if j == |es| {
        assert t[i] == es[i];
      }
    }
  }

  /** Replacing records by ones with the same handles and keys keeps one record per key. */
  lemma SameKeysCanonicalParts(a: seq<Entry>, b: seq<Entry>, index: map<string, Ref>)
    requires KeysUnique(a) && IndexComplete(a, index)
    requires |a| == |b|
    requires forall i :: 0 <= i < |a| ==> b[i].ref == a[i].ref && b[i].mem.key == a[i].mem.key
    ensures KeysUnique(b) && IndexComplete(b, index)
  {
  }

  /** On a store with one record per key, `add_memory` keeps one record per key. */
  lemma AddMemoryCanonical(s: Store, memoryType: string, content: string, key: Option<string>,
                           value: Option<string>, importance: int, companionId: string, isShared: bool,
                           mint: nat -> string, now: nat)
    requires Canonical(s)
    ensures Canonical(AddMemory(s, memoryType, content, key, value, importance, companionId, isShared, mint, now).0)
  {
    var r := AddMemory(s, memoryType, content, key, value, importance, companionId, isShared, mint, now);
    if Truthy(key) && key.value in s.index {
      SameKeysCanonicalParts(s.entries, r.0.entries, s.index);
    } else {
      var e := r.0.entries[|s.entries|];
      assert r.0.entries == s.entries + [e];
      AppendCanonicalParts(s.entries, s.index, e);
    }
  }

  /** Two keyed calls leave one record with that key,
      holding the latest value and content and the larger importance. */
  lemma UpsertTwice(s: Store, memoryType: string, k: string,
                                       c1: string, v1: Option<string>, i1: int,
                                       c2: string, v2: Option<string>, i2: int,
                                       companionId: string, isShared: bool, mint: nat -> string,
                                       t1: nat, t2: nat)
    requires Canonical(s) && k != "" && k !in s.index
    ensures
      var a := AddMemory(s, memoryType, c1, Some(k), v1, i1, companionId, isShared, mint, t1);
      var b := AddMemory(a.0, memoryType, c2, Some(k), v2, i2, companionId, isShared, mint, t2);
      && b.1 == a.1
      && |b.0.entries| == |s.entries| + 1
      && Count(b.0.entries, (e: Entry) => e.mem.key == Some(k)) == 1
      && Get(b.0, b.1).Some?
      && Get(b.0, b.1).value.content == c2 && Get(b.0, b.1).value.value == v2
      && Get(b.0, b.1).value.importance == Max(i1, i2)
  {
    var a := AddMemory(s, memoryType, c1, Some(k), v1, i1, companionId, isShared, mint, t1);
    var b := AddMemory(a.0, memoryType, c2, Some(k), v2, i2, companionId, isShared, mint, t2);
    FirstUpsert(s, memoryType, k, c1, v1, i1, companionId, isShared, mint, t1);
    SecondUpsert(a.0, a.1, memoryType, k, c2, v2, i2, companionId, isShared, mint, t2);
  }

  /** A keyed call on an indexed key updates that record in place and leaves
      the number of records with the key alone. */
  lemma SecondUpsert(a: Store, r: Ref, memoryType: string, k: string, c2: string, v2: Option<string>, i2: int,
                     companionId: string, isShared: bool, mint: nat -> string, t2: nat)
    requires Valid(a) && k != "" && k in a.index && a.index[k] == r
    ensures
      var b := AddMemory(a, memoryType, c2, Some(k), v2, i2, companionId, isShared, mint, t2);
      && b.1 == r && |b.0.entries| == |a.entries|
      && Count(b.0.entries, (e: Entry) => e.mem.key == Some(k)) == Count(a.entries, (e: Entry) => e.mem.key == Some(k))
      && Get(b.0, r) == Some(Merged(Get(a, r).value, c2, v2, i2).(lastAccessed := t2))
  {
    var b := AddMemory(a, memoryType, c2, Some(k), v2, i2, companionId, isShared, mint, t2);
    FindSameRefs(a.entries, b.0.entries, r);
    forall i | 0 <= i < |a.entries| ensures a.entries[i].mem.key == b.0.entries[i].mem.key {
      if a.entries[i].ref == r {
        FindDistinct(a.entries, i);
      }
    }
    CountSameKeys(a.entries, b.0.entries, k);
  }

  /** The first keyed call appends the one record with that key and indexes it. */
  lemma FirstUpsert(s: Store, memoryType: string, k: string, c1: string, v1: Option<string>, i1: int,
                    companionId: string, isShared: bool, mint: nat -> string, t1: nat)
    requires Canonical(s) && k != "" && k !in s.index
    ensures
      var a := AddMemory(s, memoryType, c1, Some(k), v1, i1, companionId, isShared, mint, t1);
      && k in a.0.index && a.0.index[k] == a.1
      && |a.0.entries| == |s.entries| + 1
      && Find(a.0.entries, a.1) == Some(|s.entries|)
      && Count(a.0.entries, (e: Entry) => e.mem.key == Some(k)) == 1
  {
    var a := AddMemory(s, memoryType, c1, Some(k), v1, i1, companionId, isShared, mint, t1);
    AddMemoryCanonical(s, memoryType, c1, Some(k), v1, i1, companionId, isShared, mint, t1);
    var p := (e: Entry) => e.mem.key == Some(k);
    var n := |s.entries|;
    assert Find(a.0.entries, a.1) == Some(n) by { FindAppend(s.entries, a.0.entries[n], a.1); }
    assert Filter(s.entries, p) == [] by {
      forall i | 0 <= i < n ensures !p(s.entries[i]) {
      }
      FilterNone(s.entries, p);
    }
    FilterAppend(s.entries, [a.0.entries[n]], p);
    assert a.0.entries == s.entries + [a.0.entries[n]];
  }

  /** Records whose keys match position by position have the same number of `k`-keyed records. */
  lemma CountSameKeys(a: seq<Entry>, b: seq<Entry>, k: string)
    requires |a| == |b|
    requires forall i :: 0 <= i < |a| ==> a[i].mem.key == b[i].mem.key
    ensures Count(a, (e: Entry) => e.mem.key == Some(k)) == Count(b, (e: Entry) => e.mem.key == Some(k))
  {
    if |a| > 0 {
      CountSameKeys(a[1..], b[1..], k);
    }
  }

  // ---------------------------------------------------------------------------
  // get_memory_by_key
  // ---------------------------------------------------------------------------

  /** `get_memory_by_key`: the record indexed under `key`, touched; no record
      and no change when the key is not indexed. */
  function GetMemoryByKey(s: Store, key: string, now: nat): (r: (Store, Option<Memory>))
    requires Valid(s)
    ensures Valid(r.0)
    ensures r.1.Some? <==> key in s.index
    ensures key !in s.index ==> r.0 == s
    ensures key in s.index ==>
              && Get(s, s.index[key]).Some?
              && r.1 == Some(Touch(Get(s, s.index[key]).value, now))
              && r.1.value.key == Some(key)
              && r.0 == TouchRefs(s, {s.index[key]}, now)
  {
    if key in s.index then
      var ref := s.index[key];
      var t := TouchRefs(s, {ref}, now);
      TouchRefsValid(s, {ref}, now);
      GetTouchRefs(s, {ref}, now, ref);
      (t, Get(t, ref))
    else (s, None)
  }

  // ---------------------------------------------------------------------------
  // delete_memory and update_memory_importance
  // ---------------------------------------------------------------------------

  /** `delete_memory`: removes the first record with this id and, if it has a
      key, drops that key from the index; reports whether a record was found. */
  function DeleteMemory(s: Store, id: string): (r: (Store, bool))
    requires Valid(s)
    ensures Valid(r.0)
    ensures r.1 <==> exists i :: 0 <= i < |s.entries| && s.entries[i].mem.id == id
    ensures !r.1 ==> r.0 == s
    ensures r.1 ==>
              var i := FirstWithId(s.entries, id).value;
              && r.0.entries == s.entries[..i] + s.entries[i + 1..]
              && r.0.index == (if Truthy(s.entries[i].mem.key) then s.index - {s.entries[i].mem.key.value} else s.index)
              && r.0.nextRef == s.nextRef
  {
    match FirstWithId(s.entries, id)
    case None => (s, false)
    case Some(i) =>
      var e := s.entries[i];
      var t := Store(s.entries[..i] + s.entries[i + 1..],
                     if Truthy(e.mem.key) then s.index - {e.mem.key.value} else s.index,
                     s.nextRef);
      RemoveValid(s, i, t);
      (t, true)
  }

  /** With distinct handles, `Find` locates every object at its own position. */
  lemma FindDistinct(es: seq<Entry>, j: nat)
    requires Distinct(Refs(es)) && j < |es|
    ensures Find(es, es[j].ref) == Some(j)
  {
    var p := Find(es, es[j].ref);
    assert p.Some?;
  }

  lemma RemoveDistinct(es: seq<Entry>, i: nat)
    requires Distinct(Refs(es)) && i < |es|
    ensures Distinct(Refs(es[..i] + es[i + 1..]))
  {
    var t := es[..i] + es[i + 1..];
    var rs := Refs(es);
    forall a, b | 0 <= a < b < |t| ensures Refs(t)[a] != Refs(t)[b] {
      var a' := if a < i then a else a + 1;
      var b' := if b < i then b else b + 1;
      assert t[a] == es[a'] && t[b] == es[b'];
      assert rs[a'] != rs[b'];
    }
  }

  lemma RemoveValid(s: Store, i: nat, t: Store)
    requires Valid(s) && i < |s.entries|
    requires t.entries == s.entries[..i] + s.entries[i + 1..] && t.nextRef == s.nextRef
    requires t.index == (if Truthy(s.entries[i].mem.key) then s.index - {s.entries[i].mem.key.value} else s.index)
    ensures Valid(t)
  {
    RemoveDistinct(s.entries, i);
    forall k | k in t.index
      ensures k != "" && Find(t.entries, t.index[k]).Some? &&
              t.entries[Find(t.entries, t.index[k]).value].mem.key == Some(k)
    {
      RemoveIndexEntry(s, i, t, k);
    }
  }

  /** An index entry that survives the removal still finds its record. */
  lemma RemoveIndexEntry(s: Store, i: nat, t: Store, k: string)
    requires Valid(s) && i < |s.entries|
    requires t.entries == s.entries[..i] + s.entries[i + 1..] && Distinct(Refs(t.entries))
    requires t.index == (if Truthy(s.entries[i].mem.key) then s.index - {s.entries[i].mem.key.value} else s.index)
    requires k in t.index
    ensures k != "" && Find(t.entries, t.index[k]).Some? &&
            t.entries[Find(t.entries, t.index[k]).value].mem.key == Some(k)
  {
    var es := s.entries;
    var r := t.index[k];
    assert k in s.index && s.index[k] == r;
    var j := Find(es, r).value;
    assert es[j].mem.key == Some(k);
    assert j != i;
    var j' := if j < i then j else j - 1;
    assert t.entries[j'] == es[j];
    FindDistinct(t.entries, j');
  }

  /** Removing one record keeps one record per key. */
  lemma RemoveCanonicalParts(es: seq<Entry>, index: map<string, Ref>, i: nat)
    requires KeysUnique(es) && IndexComplete(es, index) && i < |es|
    ensures KeysUnique(es[..i] + es[i + 1..])
    ensures IndexComplete(es[..i] + es[i + 1..],
                          if Truthy(es[i].mem.key) then index - {es[i].mem.key.value} else index)
  {
    var t := es[..i] + es[i + 1..];
    forall a, b | 0 <= a < b < |t| && Truthy(t[a].mem.key)
      ensures t[b].mem.key != t[a].mem.key
    {
      var a' := if a < i then a else a + 1;
      var b' := if b < i then b else b + 1;
      assert t[a] == es[a'] && t[b] == es[b'];
    }
    forall a | 0 <= a < |t| && Truthy(t[a].mem.key)
      ensures t[a].mem.key != es[i].mem.key
    {
      var a' := if a < i then a else a + 1;
      assert t[a] == es[a'];
    }
  }

  /** `update_memory_importance`: clamps into [1, 5] and stores it on the first
      record with this id, touching nothing else; false and no change when no
      record has the id. */
  function UpdateMemoryImportance(s: Store, id: string, importance: int): (r: (Store, bool))
    requires Valid(s)
    ensures Valid(r.0)
    ensures r.1 <==> exists i :: 0 <= i < |s.entries| && s.entries[i].mem.id == id
    ensures !r.1 ==> r.0 == s
    ensures r.1 ==>
              var i := FirstWithId(s.entries, id).value;
              && SameExcept(s, r.0, s.entries[i].ref)
              && r.0.entries[i].mem == s.entries[i].mem.(importance := Clamp(importance))
              && 1 <= r.0.entries[i].mem.importance <= 5
  {
    match FirstWithId(s.entries, id)
    case None => (s, false)
    case Some(i) =>
      SetAtValid(s, i, s.entries[i].mem.(importance := Clamp(importance)));
      (SetAt(s, i, s.entries[i].mem.(importance := Clamp(importance))), true)
  }

  /** Deleting keeps one record per key. */
  lemma DeleteCanonical(s: Store, id: string)
    requires Canonical(s)
    ensures Canonical(DeleteMemory(s, id).0)
  {
    match FirstWithId(s.entries, id)
    case None =>
    case Some(i) =>
      RemoveValid(s, i, DeleteMemory(s, id).0);
      RemoveCanonicalParts(s.entries, s.index, i);
  }

  /** Adding a record under a new key (or none) and then deleting it by its
      fresh id restores the records and the index. */
  lemma {:induction false} DeleteUndoesAdd(s: Store, memoryType: string, content: string, key: Option<string>,
                                           value: Option<string>, importance: int, companionId: string,
                                           isShared: bool, mint: nat -> string, now: nat)
    requires Valid(s)
    requires !(Truthy(key) && key.value in s.index)
    requires forall i :: 0 <= i < |s.entries| ==> s.entries[i].mem.id != mint(s.nextRef)
    ensures
      var a := AddMemory(s, memoryType, content, key, value, importance, companionId, isShared, mint, now);
      var d := DeleteMemory(a.0, mint(s.nextRef));
      d.1 && d.0.entries == s.entries && d.0.index == s.index
  {
    var id := mint(s.nextRef);
    var e := Entry(s.nextRef, NewMemory(id, memoryType, content, key, value, importance, companionId, isShared, now));
    var a := AddMemory(s, memoryType, content, key, value, importance, companionId, isShared, mint, now);
    var n := |s.entries|;
    assert a.0.entries == s.entries + [e];
    FirstWithIdAppend(s.entries, e, id);
    assert (s.entries + [e])[..n] + (s.entries + [e])[n + 1..] == s.entries;
    if Truthy(key) {
      MapUpdateRemove(s.index, key.value, s.nextRef);
    }
  }

  lemma MapUpdateRemove<K, V>(m: map<K, V>, k: K, v: V)
    requires k !in m
    ensures m[k := v] - {k} == m
  {
  }

  lemma FirstWithIdAppend(es: seq<Entry>, e: Entry, id: string)
    requires forall i :: 0 <= i < |es| ==> es[i].mem.id != id
    requires e.mem.id == id
    ensures FirstWithId(es + [e], id) == Some(|es|)
  {
    if |es| > 0 {
      assert (es + [e])[1..] == es[1..] + [e];
      FirstWithIdAppend(es[1..], e, id);
    }
  }

  // ---------------------------------------------------------------------------
  // _rebuild_index
  // ---------------------------------------------------------------------------

  /** `_rebuild_index`: every keyed record in list order, so a later record
      with the same key replaces an earlier one. */
  function RebuildIndex(es: seq<Entry>): map<string, Ref> {
    if |es| == 0 then map[]
    else
      var m := RebuildIndex(es[..|es| - 1]);
      var last := es[|es| - 1];
      if Truthy(last.mem.key) then m[last.mem.key.value := last.ref] else m
  }

  /** The rebuilt index holds exactly the keys in use, each pointing at the last
      record holding it. */
  lemma {:induction false} RebuildIndexLastWins(es: seq<Entry>, k: string)
    ensures k in RebuildIndex(es) <==> exists i :: 0 <= i < |es| && Truthy(es[i].mem.key) && es[i].mem.key.value == k
    ensures k in RebuildIndex(es) ==>
              exists i :: 0 <= i < |es| && es[i].mem.key == Some(k) && RebuildIndex(es)[k] == es[i].ref &&
                          forall j :: i < j < |es| ==> es[j].mem.key != Some(k)
  {
    if |es| > 0 {
      var init := es[..|es| - 1];
      RebuildIndexLastWins(init, k);
      var last := es[|es| - 1];
      if Truthy(last.mem.key) && last.mem.key.value == k {
        assert RebuildIndex(es)[k] == es[|es| - 1].ref;
      } else {
        if k in RebuildIndex(init) {
          var i :| 0 <= i < |init| && init[i].mem.key == Some(k) && RebuildIndex(init)[k] == init[i].ref &&
                   forall j :: i < j < |init| ==> init[j].mem.key != Some(k);
          assert es[i] == init[i];
        }
        if exists i :: 0 <= i < |es| && Truthy(es[i].mem.key) && es[i].mem.key.value == k {
          var i :| 0 <= i < |es| && Truthy(es[i].mem.key) && es[i].mem.key.value == k;
          assert i < |init| && init[i] == es[i];
        }
      }
    }
  }

  /** On a store with one record per key, rebuilding the index gives back the
      index the store already has (what `load` reconstructs). */
  lemma RebuildIndexCanonical(s: Store)
    requires Canonical(s)
    ensures RebuildIndex(s.entries) == s.index
  {
    var m := RebuildIndex(s.entries);
    forall k ensures (k in m <==> k in s.index) && (k in m ==> m[k] == s.index[k]) {
      RebuildIndexLastWins(s.entries, k);
      if k in s.index {
        var i := Find(s.entries, s.index[k]).value;
        assert Truthy(s.entries[i].mem.key) && s.entries[i].mem.key.value == k;
      }
      if k in m {
        var i :| 0 <= i < |s.entries| && s.entries[i].mem.key == Some(k) && m[k] == s.entries[i].ref &&
                 forall j :: i < j < |s.entries| ==> s.entries[j].mem.key != Some(k);
        assert Truthy(s.entries[i].mem.key);
      }
    }
  }
}
